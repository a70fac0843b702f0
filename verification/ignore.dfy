/** The per-directory ignore file `.vcs.ignore`: a set of literal child names. */
module Ignore {

  import opened Wrappers
  import opened Fs

  const IgnoreFileName: Name := ".vcs.ignore"

  /** Position of the first `c` in `s`, or `|s|` when there is none. */
  function IndexOf(s: string, c: char): (i: nat)
    ensures i <= |s|
    ensures i < |s| ==> s[i] == c
    ensures c !in s[..i]
  {
    if s == [] then 0
    else if s[0] == c then 0
    else 1 + IndexOf(s[1..], c)
  }

  /** Drops one trailing carriage return. */
  function StripCr(line: string): (r: string)
    ensures r <= line
  {
    if |line| > 0 && line[|line| - 1] == '\r' then line[..|line| - 1] else line
  }

  /** `str::lines`: split at each `\n`, drop a `\r` that precedes that `\n`,
      and yield no empty line after a final `\n`. A `\r` ending the last
      line without a `\n` stays. */
  function Lines(s: string): (ls: seq<string>)
    ensures forall l | l in ls :: '\n' !in l
    decreases |s|
  {
    if s == [] then []
    else
      var i := IndexOf(s, '\n');
      if i == |s| then [s]
      else
        assert StripCr(s[..i]) <= s[..i];
        [StripCr(s[..i])] + Lines(s[i + 1..])
  }

  /** The line structure: a first line up to its `\n`, then the lines of the rest. */
  lemma LinesAppend(a: string, b: string)
    requires '\n' !in a
    ensures Lines(a + "\n" + b) == [StripCr(a)] + Lines(b)
  {
    var s := a + "\n" + b;
    IndexOfAt(s, '\n', |a|);
    assert s[..|a|] == a;
    assert s[|a| + 1..] == b;
  }

  /** A text without `\n` is one line, kept whole. */
  lemma LinesSingle(a: string)
    requires a != [] && '\n' !in a
    ensures Lines(a) == [a]
  {
    IndexOfAt(a, '\n', |a|);
  }

  lemma {:induction false} IndexOfAt(s: string, c: char, i: nat)
    requires i <= |s|
    requires i < |s| ==> s[i] == c
    requires c !in s[..i]
    ensures IndexOf(s, c) == i
  {
    if s != [] && i > 0 {
      assert s[0] in s[..i];
      assert s[1..][..i - 1] == s[..i][1..];
      IndexOfAt(s[1..], c, i - 1);
    }
  }

  /** Every character of every line comes from the text. */
  lemma {:induction false} LinesFromText(s: string)
    ensures forall l, c | l in Lines(s) && c in l :: c in s
    decreases |s|
  {
    if s != [] {
      var i := IndexOf(s, '\n');
      if i < |s| {
        LinesFromText(s[i + 1..]);
        forall l, c | l in Lines(s) && c in l
          ensures c in s
        {
          if l == StripCr(s[..i]) {
            assert c in s[..i];
          } else {
            assert l in Lines(s[i + 1..]);
          }
        }
      }
    }
  }

  /** Unicode `White_Space`, the set `str::trim` removes. */
  predicate IsWhitespace(c: char)
  {
    || '\t' <= c <= '\r'
    || c == ' '
    || c == '\U{85}'
    || c == '\U{A0}'
    || c == '\U{1680}'
    || '\U{2000}' <= c <= '\U{200A}'
    || c == '\U{2028}' || c == '\U{2029}'
    || c == '\U{202F}' || c == '\U{205F}'
    || c == '\U{3000}'
  }

  /** Removes leading whitespace: the result is the suffix of `s` after its
      longest whitespace prefix. */
  function TrimStart(s: string): (t: string)
    ensures |t| <= |s| && t == s[|s| - |t|..]
    ensures t != [] ==> !IsWhitespace(t[0])
    ensures forall k | 0 <= k < |s| - |t| :: IsWhitespace(s[k])
  {
    if s != [] && IsWhitespace(s[0]) then TrimStart(s[1..]) else s
  }

  /** Removes trailing whitespace: the result is the prefix of `s` before its
      longest whitespace suffix. */
  function TrimEnd(s: string): (t: string)
    ensures t <= s
    ensures t != [] ==> !IsWhitespace(t[|t| - 1])
    ensures forall k | |t| <= k < |s| :: IsWhitespace(s[k])
  {
    if s != [] && IsWhitespace(s[|s| - 1]) then TrimEnd(s[..|s| - 1]) else s
  }

  /** `str::trim`. */
  function Trim(s: string): (t: string)
    ensures |t| <= |s|
  {
    TrimEnd(TrimStart(s))
  }

  /** A string trims to nothing exactly when it is all whitespace. */
  lemma TrimEmptyIffBlank(s: string)
    ensures Trim(s) == [] <==> forall c | c in s :: IsWhitespace(c)
  {
    var u := TrimStart(s);
    if Trim(s) == [] {
      // a non-empty `u` would start with a non-blank that TrimEnd cannot remove
      assert u == [];
    }
  }

  /** What one line contributes to the ignore set: blank lines nothing; a line
      starting with `/` (and longer than it) everything after the `/`, untrimmed;
      other lines starting with `#` nothing; any other line itself, trimmed. */
  function LineRule(line: string): Option<string>
  {
    if Trim(line) == [] then None
    else if line[0] == '/' && |line| > 1 then Some(line[1..])
    else if line[0] == '#' then None
    else Some(Trim(line))
  }

  function Collect(lines: seq<string>): set<string>
  {
    set l | l in lines && LineRule(l).Some? :: LineRule(l).value
  }

  lemma CollectSnoc(lines: seq<string>, line: string)
    ensures Collect(lines + [line]) ==
      Collect(lines) + (if LineRule(line).Some? then {LineRule(line).value} else {})
  {
    var ls := lines + [line];
    assert forall l | l in ls :: l in lines || l == line;
  }

  /** The ignore set denoted by the text of an ignore file. */
  function ParseIgnore(text: string): set<string>
  {
    Collect(Lines(text))
  }

  /** `fs::read_to_string`: the file's text, or nothing when it cannot be opened,
      read, or decoded as UTF-8. */
  function IgnoreText(env: Env, target: Option<Node>): Option<string>
  {
    if OpenError(target).Some? then None
    else
      match ReadAll(target)
      case Err(_) => None
      case Ok(bytes) => env.utf8(bytes)
  }

  /** The ignore set loaded from `target`: empty when there is no readable text. */
  function IgnoreListOf(env: Env, target: Option<Node>): set<string>
  {
    match IgnoreText(env, target)
    case None => {}
    case Some(text) => ParseIgnore(text)
  }

  /** The ignore set of a directory: the one loaded from its own `.vcs.ignore`. */
  function IgnoreListAt(env: Env, dir: Node): set<Name>
  {
    IgnoreListOf(env, Child(dir, IgnoreFileName))
  }

  /** Loads the ignore file at `target`, inserting each line's name into the set. */
  method ReadIgnoreFile(env: Env, target: Option<Node>) returns (ignoreList: set<string>)
    ensures ignoreList == IgnoreListOf(env, target)
  {
    ignoreList := {};
    var contents := IgnoreText(env, target);
    if contents.Some? {
      var lines := Lines(contents.value);
      var i := 0;
      while i < |lines|
        invariant 0 <= i <= |lines|
        invariant ignoreList == Collect(lines[..i])
      {
        var line := lines[i];
        assert lines[..i + 1] == lines[..i] + [line];
        CollectSnoc(lines[..i], line);
        if Trim(line) != [] {
          if line[0] == '/' && |line| > 1 {
            ignoreList := ignoreList + {line[1..]};
          } else if line[0] == '#' {
          } else {
            ignoreList := ignoreList + {Trim(line)};
          }
        }
        i := i + 1;
      }
      assert lines[..|lines|] == lines;
    }
  }

  /** `is_ignored`: exact membership of the base name; whether it is a folder does not matter. */
  function IsIgnored(name: Name, ignoreList: set<Name>, isFolder: bool): bool
  {
    name in ignoreList
  }

  /** A name is ignored by a text exactly when one of its lines contributes that
      very name: no pattern, no path, no case folding. */
  lemma IsIgnoredIffSomeLine(text: string, name: Name, isFolder: bool)
    ensures IsIgnored(name, ParseIgnore(text), isFolder)
        <==> exists line | line in Lines(text) :: LineRule(line) == Some(name)
  {
  }

  /** A missing or unreadable ignore file ignores nothing. */
  lemma NoIgnoreFileIgnoresNothing(env: Env, dir: Node)
    requires IgnoreText(env, Child(dir, IgnoreFileName)).None?
    ensures IgnoreListAt(env, dir) == {}
  {
  }

  /** A text made only of whitespace (blank lines included) ignores nothing. */
  lemma BlankTextIgnoresNothing(text: string)
    requires forall c | c in text :: IsWhitespace(c)
    ensures ParseIgnore(text) == {}
  {
    LinesFromText(text);
    forall l | l in Lines(text)
      ensures LineRule(l).None?
    {
      TrimEmptyIffBlank(l);
    }
  }

  /** A line `/name` contributes exactly `name`, not trimmed, even when `name` starts with `#`. */
  lemma SlashLineKept(text: string, line: string)
    requires line in Lines(text)
    requires |line| > 1 && line[0] == '/'
    ensures line[1..] in ParseIgnore(text)
    ensures ParseIgnore(line) == {line[1..]}
  {
    TrimEmptyIffBlank(line);
    assert LineRule(line) == Some(line[1..]);
    LinesSingle(line);
    assert Collect([line]) == {line[1..]};
  }

  /** Any other non-blank line not starting with `#` contributes itself, trimmed. */
  lemma PlainLineKept(text: string, line: string)
    requires line in Lines(text)
    requires Trim(line) != []
    requires line[0] != '#' && (line[0] != '/' || |line| == 1)
    ensures Trim(line) in ParseIgnore(text)
    ensures ParseIgnore(line) == {Trim(line)}
  {
    assert LineRule(line) == Some(Trim(line));
    LinesSingle(line);
    assert Collect([line]) == {Trim(line)};
  }

  /** Every ignored name is non-empty and lies within one line. */
  lemma IgnoredNamesWellFormed(text: string)
    ensures forall name | name in ParseIgnore(text) :: name != [] && '\n' !in name
  {
    forall name | name in ParseIgnore(text)
      ensures name != [] && '\n' !in name
    {
      var l :| l in Lines(text) && LineRule(l) == Some(name);
      LineRuleWellFormed(l);
    }
  }

  /** What one line contributes is non-empty and drawn from the line. */
  lemma LineRuleWellFormed(line: string)
    requires LineRule(line).Some?
    ensures LineRule(line).value != []
    ensures forall c | c in LineRule(line).value :: c in line
  {
    var name := LineRule(line).value;
    if line[0] == '/' && |line| > 1 {
      assert name == line[1..];
    } else {
      var u := TrimStart(line);
      assert name == TrimEnd(u) && name <= u;
      assert forall c | c in name :: c in u;
    }
  }

  /** A comment line contributes nothing: the rest of the text alone decides. */
  lemma CommentLineIgnored(a: string, b: string)
    requires a != [] && a[0] == '#'
    requires '\n' !in a
    ensures ParseIgnore(a + "\n" + b) == ParseIgnore(b)
  {
    ParseIgnoreAppend(a, b);
    var c := StripCr(a);
    assert c != [] && c[0] == '#';
    LinesSingle(c);
    assert Collect([c]) == {};
  }

  /** Filters the listing one name at a time with `is_ignored`, telling it
      whether each child is a folder: whatever `isFolder` says, what is kept is
      exactly the listing less the ignore set. */
  method FilterIgnored(listing: set<Name>, ignoreList: set<Name>, isFolder: Name -> bool)
    returns (kept: set<Name>)
    ensures kept == listing - ignoreList
  {
    kept := {};
    var todo := listing;
    while todo != {}
      invariant todo <= listing
      invariant kept == (listing - todo) - ignoreList
      decreases |todo|
    {
      var name :| name in todo;
      if !IsIgnored(name, ignoreList, isFolder(name)) {
        kept := kept + {name};
      }
      todo := todo - {name};
    }
  }

  /** Lines are independent: the ignore set of a text is the union of its lines'
      sets, a line ended by `\r\n` counting without its `\r`. */
  lemma ParseIgnoreAppend(a: string, b: string)
    requires '\n' !in a
    ensures ParseIgnore(a + "\n" + b) == ParseIgnore(StripCr(a)) + ParseIgnore(b)
  {
    LinesAppend(a, b);
    var c := StripCr(a);
    assert '\n' !in c by {
      assert forall k | 0 <= k < |c| :: c[k] == a[k];
    }
    var ls := Lines(a + "\n" + b);
    assert ls == [c] + Lines(b);
    if c == [] {
      assert Trim(c) == [];
      assert Collect(ls) == Collect(Lines(b));
    } else {
      LinesSingle(c);
      assert Collect(ls) == Collect([c]) + Collect(Lines(b));
    }
  }

  /** The whole ignore set: every name some line of the text contributes. */
  lemma {:induction false} ParseIgnoreByLines(text: string)
    ensures ParseIgnore(text) == set l, x | l in Lines(text) && x in ParseIgnore(l) :: x
    decreases |text|
  {
    forall l | l in Lines(text)
      ensures ParseIgnore(l) == (if LineRule(l).Some? then {LineRule(l).value} else {})
    {
      if l == [] {
        assert Trim(l) == [];
      } else {
        LinesSingle(l);
        assert Collect([l]) == (if LineRule(l).Some? then {LineRule(l).value} else {});
      }
    }
  }

}
