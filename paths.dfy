/** Paths as text, with the parts of Rust's `Path` the engine relies on: `join`, `file_name`, `extension`. */
module Paths {
  import opened Results
  import opened Decimal
  import opened Replays

  type Path = string

  /** `dir.join(name)`: an absolute name replaces the directory; no separator is doubled. */
  function Join(dir: Path, name: string): (p: Path)
    ensures |p| >= |name| && p[|p| - |name|..] == name
    ensures |name| > 0 && name[0] == '/' ==> p == name
  {
    if |name| > 0 && name[0] == '/' then name
    else if dir == [] then name
    else if dir[|dir| - 1] == '/' then dir + name
    else dir + "/" + name
  }

  /** The position of the last `c` in `s`. */
  function LastIndexOf(s: string, c: char): (r: Option<nat>)
    ensures r.None? <==> c !in s
    ensures r.Some? ==> r.value < |s| && s[r.value] == c && c !in s[r.value + 1..]
  {
    if s == [] then None
    else if s[|s| - 1] == c then Some(|s| - 1)
    else
      var r := LastIndexOf(s[..|s| - 1], c);
      assert r.Some? ==> s[r.value + 1..] == s[..|s| - 1][r.value + 1..] + [s[|s| - 1]];
      r
  }

  /** A position holding `c` with no `c` after it is the one `LastIndexOf` finds. */
  lemma LastIndexOfIs(s: string, c: char, i: nat)
    requires i < |s| && s[i] == c && c !in s[i + 1..]
    ensures LastIndexOf(s, c) == Some(i)
  {
    assert s[i] in s;
  }

  /** The final component of a path without a trailing separator. */
  function FileName(p: Path): string {
    match LastIndexOf(p, '/')
    case None => p
    case Some(i) => p[i + 1..]
  }

  /**
   * `Path::extension` of a file name: the text after its last dot, except that ".." and a
   * name whose only dot is its first character have none.
   */
  function Extension(name: string): Option<string> {
    if name == ".." then None
    else match LastIndexOf(name, '.')
      case None => None
      case Some(i) => if i == 0 then None else Some(name[i + 1..])
  }

  /**
   * The file name is the path's tail after its last separator: a separator-free suffix that is
   * either the whole path or preceded by a separator. A path without separators is its own file name.
   */
  lemma FileNameIsLastComponent(p: Path)
    ensures var name := FileName(p);
      '/' !in name && |name| <= |p| && p[|p| - |name|..] == name
    ensures var name := FileName(p);
      |name| < |p| ==> p[|p| - |name| - 1] == '/'
    ensures '/' !in p ==> FileName(p) == p
  {
  }

  /**
   * An extension is the dot-free text after the name's last dot, with something before that
   * dot; a name without a dot has none.
   */
  lemma ExtensionIsSuffix(name: string)
    ensures var e := Extension(name);
      e.Some? ==>
        && '.' !in e.value && |e.value| + 1 < |name|
        && name[|name| - |e.value| - 1] == '.' && name[|name| - |e.value|..] == e.value
    ensures '.' !in name ==> Extension(name).None?
  {
  }

  /** An entry the pruner may consider: its extension is exactly `ttr` or `ttrm`. */
  predicate IsReplayFile(p: Path) {
    Extension(FileName(p)) == Some("ttr") || Extension(FileName(p)) == Some("ttrm")
  }

  /** The target path of a replay: `directory.join(filename)`. */
  function KeepPath(dir: Path, r: Replay): (p: Path)
    ensures |p| >= |Filename(r)| && p[|p| - |Filename(r)|..] == Filename(r)
  {
    Join(dir, Filename(r))
  }

  /** A name made of a non-empty stem, a dot and a non-empty dot-free tail has that tail as extension. */
  lemma ExtensionOfDotted(stem: string, ext: string)
    requires stem != [] && ext != [] && '.' !in ext
    ensures Extension(stem + "." + ext) == Some(ext)
  {
    var name := stem + "." + ext;
    var i := LastIndexOf(name, '.');
    assert name[|stem|] == '.';
    assert name[|stem| + 1..] == ext;
  }

  /** Joining a name without separators puts it last. */
  lemma FileNameOfJoin(dir: Path, name: string)
    requires '/' !in name
    ensures FileName(Join(dir, name)) == name
  {
    var p := Join(dir, name);
    if p != name {
      var head := if dir[|dir| - 1] == '/' then dir else dir + "/";
      assert p == head + name;
      assert p[|head| - 1] == '/' && p[|head|..] == name;
      LastIndexOfIs(p, '/', |head| - 1);
    }
  }

  lemma DigitsHaveNoSlash(s: string)
    requires AllDigits(s)
    ensures '/' !in s
  {
  }

  /** Timestamp texts hold digits, signs, 'T' and 'Z' only. */
  lemma TimestampTextHasNoSlash(t: Timestamp)
    ensures '/' !in TimestampText(t)
  {
    DigitsHaveNoSlash(ZeroPad(if t.year < 0 then -t.year else t.year, 4));
    DigitsHaveNoSlash(ZeroPad(t.month, 2));
    DigitsHaveNoSlash(ZeroPad(t.day, 2));
    DigitsHaveNoSlash(ZeroPad(t.hour, 2));
    DigitsHaveNoSlash(ZeroPad(t.minute, 2));
    DigitsHaveNoSlash(ZeroPad(DisplaySecond(t), 2));
    assert '/' !in YearText(t.year);
  }

  /**
   * Every path the engine keeps is a replay file whose extension says whether it is a
   * multiplayer replay, provided the id holds no path separator.
   */
  lemma KeepPathIsReplayFile(dir: Path, r: Replay)
    requires '/' !in r.id
    ensures FileName(KeepPath(dir, r)) == Filename(r)
    ensures Extension(FileName(KeepPath(dir, r))) == Some(ExtensionFor(r.isMulti))
    ensures IsReplayFile(KeepPath(dir, r))
  {
    TimestampTextHasNoSlash(r.timestamp);
    assert '/' !in Stem(r);
    assert '/' !in ExtensionFor(r.isMulti);
    assert '/' !in Filename(r);
    FileNameOfJoin(dir, Filename(r));
    FilenameParts(r);
    ExtensionOfDotted(Stem(r), ExtensionFor(r.isMulti));
  }
}
