/**
 * The incremental build script: it reads the dependency manifests g++
 * writes, decides whether an object file is stale from modification times,
 * creates output directories, and compiles every C/C++ source under `src`
 * before linking.
 *
 * The filesystem is a map from path to node. The compiler is an oracle that
 * gives an exit code, and `list_files_recursive` is an oracle that gives a
 * listing (its order is not specified). Python exceptions that escape the
 * script are the `Raised` outcome.
 */
module PyMake {

  /** What a path names: a directory, or a file with its contents. */
  datatype Node = Dir(mtime: int) | File(mtime: int, contents: string)

  type FileMap = map<string, Node>

  /** The exceptions the script can let escape. */
  datatype PyError =
    | IndexError                // `dep_split[1]` on a manifest line without ':'
    | FileNotFound(path: string) // `os.path.getmtime` or `os.listdir` of a missing path
    | FileExists(path: string)  // `os.mkdir` where a file already sits
    | NotADirectory(path: string) // `os.listdir` of a file

  datatype Outcome<T> = Done(value: T) | Raised(error: PyError)

  /** What the script does that can be seen from outside. */
  datatype Event =
    | Created(dir: string)
    | Compiled(dep: string, obj: string, src: string, code: int)
    | CompilationFailed
    | Linked(objects: seq<string>, bin: string)

  // ---------------------------------------------------------------------
  // String helpers with Python's semantics

  /** `s.replace('\\\n', '')`: every backslash-newline pair, read left to right, is deleted. */
  function RemoveContinuations(s: string): (r: string)
    ensures |r| <= |s|
    decreases |s|
  {
    if |s| == 0 then ""
    else if |s| >= 2 && s[0] == '\\' && s[1] == '\n' then RemoveContinuations(s[2..])
    else [s[0]] + RemoveContinuations(s[1..])
  }

  /** `s.split(c)` for a one-character separator. */
  function SplitOn(s: string, c: char): (pieces: seq<string>)
    ensures |pieces| >= 1
    ensures forall p <- pieces :: c !in p
    ensures forall p <- pieces :: multiset(p) <= multiset(s)
    decreases |s|
  {
    if |s| == 0 then [""]
    else
      var rest := SplitOn(s[1..], c);
      assert s == [s[0]] + s[1..];
      assert multiset(s) == multiset{s[0]} + multiset(s[1..]);
      if s[0] == c then [""] + rest
      else
        assert multiset([s[0]] + rest[0]) == multiset{s[0]} + multiset(rest[0]);
        var pieces := [[s[0]] + rest[0]] + rest[1..];
        assert forall p <- pieces :: multiset(p) <= multiset(s) by {
          forall p <- pieces ensures multiset(p) <= multiset(s) {
            if p != [s[0]] + rest[0] {
              assert p in rest;
              assert multiset(p) <= multiset(s[1..]);
            } else {
              assert rest[0] in rest;
              assert multiset(rest[0]) <= multiset(s[1..]);
            }
          }
        }
        pieces
  }

  /** `c.join(pieces)`, the inverse of `SplitOn`. */
  function JoinWith(pieces: seq<string>, c: char): string
    requires |pieces| >= 1
  {
    if |pieces| == 1 then pieces[0] else pieces[0] + [c] + JoinWith(pieces[1..], c)
  }

  /** Splitting and joining again gives the original string back. */
  lemma {:induction false} SplitJoin(s: string, c: char)
    ensures JoinWith(SplitOn(s, c), c) == s
    decreases |s|
  {
    if |s| > 0 {
      SplitJoin(s[1..], c);
      var rest := SplitOn(s[1..], c);
      if s[0] != c {
        if |rest| == 1 {
          assert SplitOn(s, c) == [[s[0]] + rest[0]];
        } else {
          assert SplitOn(s, c)[1..] == rest[1..];
        }
      }
    }
  }

  /** The text splits into at least two fields exactly when it has a separator. */
  lemma {:induction false} SplitHasTwoFields(s: string, c: char)
    ensures |SplitOn(s, c)| >= 2 <==> c in s
    decreases |s|
  {
    if |s| > 0 {
      SplitHasTwoFields(s[1..], c);
      assert c in s <==> s[0] == c || c in s[1..];
    }
  }

  /** A character missing from a text is missing from every part of it. */
  lemma NotInPart(ch: char, part: string, whole: string)
    requires multiset(part) <= multiset(whole) && ch !in whole
    ensures ch !in part
  {
    assert multiset(whole)[ch] == 0;
    assert multiset(part)[ch] == 0;
  }

  /** `filter(None, xs)`: the non-empty strings, in order. */
  function NonEmpty(xs: seq<string>): (ys: seq<string>)
    ensures |ys| <= |xs|
    ensures forall y <- ys :: y != "" && y in xs
    ensures forall x <- xs :: x != "" ==> x in ys
  {
    if |xs| == 0 then []
    else if xs[0] == "" then NonEmpty(xs[1..])
    else [xs[0]] + NonEmpty(xs[1..])
  }

  // ---------------------------------------------------------------------
  // parse_dependencies

  /** The non-empty lines of a manifest once its line continuations are removed. */
  function ManifestLines(raw: string): seq<string>
  {
    NonEmpty(SplitOn(RemoveContinuations(raw), '\n'))
  }

  /** One rule line: the space-separated, non-empty tokens between its first and second ':'. */
  function LineTokens(line: string): (r: Outcome<seq<string>>)
    ensures r.Raised? <==> ':' !in line
    ensures r.Raised? ==> r.error == IndexError
    ensures r.Done? ==> forall t <- r.value :: t != "" && ' ' !in t && ':' !in t
  {
    SplitHasTwoFields(line, ':');
    var fields := SplitOn(line, ':');
    if |fields| < 2 then Raised(IndexError)
    else
      var words := SplitOn(fields[1], ' ');
      assert forall w <- words :: ':' !in w by {
        forall w <- words ensures ':' !in w {
          NotInPart(':', w, fields[1]);
        }
      }
      Done(NonEmpty(words))
  }

  /** The tokens of all lines, concatenated in order; duplicates are kept. */
  function ParseLines(lines: seq<string>): (r: Outcome<seq<string>>)
    ensures r.Raised? <==> exists line <- lines :: ':' !in line
    ensures r.Raised? ==> r.error == IndexError
    ensures r.Done? ==> forall t <- r.value :: t != "" && ' ' !in t && ':' !in t
  {
    if |lines| == 0 then Done([])
    else match LineTokens(lines[0])
      case Raised(e) => Raised(e)
      case Done(first) =>
        match ParseLines(lines[1..])
        case Raised(e) => Raised(e)
        case Done(rest) => Done(first + rest)
  }

  /** `parse_dependencies`: the dependency list of a g++ manifest, or the IndexError it raises. */
  function ParseDependencies(raw: string): (r: Outcome<seq<string>>)
    ensures r.Raised? <==> exists line <- ManifestLines(raw) :: ':' !in line
    ensures r.Raised? ==> r.error == IndexError
    ensures r.Done? ==> forall t <- r.value :: t != "" && ' ' !in t && ':' !in t && '\n' !in t
  {
    var r := ParseLines(ManifestLines(raw));
    if r.Done? then
      NoNewlineInTokens(ManifestLines(raw), r.value);
      r
    else r
  }

  lemma {:induction false} NoNewlineInTokens(lines: seq<string>, tokens: seq<string>)
    requires forall line <- lines :: '\n' !in line
    requires ParseLines(lines) == Done(tokens)
    ensures forall t <- tokens :: '\n' !in t
  {
    if |lines| > 0 {
      var line := lines[0];
      var first := LineTokens(line).value;
      NoNewlineInTokens(lines[1..], ParseLines(lines[1..]).value);
      var fields := SplitOn(line, ':');
      var words := SplitOn(fields[1], ' ');
      NotInPart('\n', fields[1], line);
      forall t <- first ensures '\n' !in t {
        assert t in words;
        NotInPart('\n', t, fields[1]);
      }
    }
  }

  /** Text without a backslash passes through `RemoveContinuations` unchanged. */
  lemma {:induction false} NoBackslashKept(a: string)
    requires '\\' !in a
    ensures RemoveContinuations(a) == a
  {
    if |a| > 0 {
      assert a[1..] + [] == a[1..];
      NoBackslashKept(a[1..]);
    }
  }

  /** A backslash-newline pair after backslash-free text is deleted. */
  lemma {:induction false} ContinuationRemoved(a: string, b: string)
    requires '\\' !in a
    ensures RemoveContinuations(a + "\\\n" + b) == a + RemoveContinuations(b)
  {
    if |a| == 0 {
      assert a + "\\\n" + b == "\\\n" + b;
      assert ("\\\n" + b)[2..] == b;
    } else {
      assert (a + "\\\n" + b)[1..] == a[1..] + "\\\n" + b;
      ContinuationRemoved(a[1..], b);
    }
  }

  /** Text without the separator is a single field. */
  lemma {:induction false} SplitNoSeparator(a: string, c: char)
    requires c !in a
    ensures SplitOn(a, c) == [a]
  {
    if |a| > 0 {
      SplitNoSeparator(a[1..], c);
      assert a == [a[0]] + a[1..];
    }
  }

  /** The first field ends at the first separator. */
  lemma {:induction false} SplitAtFirst(a: string, b: string, c: char)
    requires c !in a
    ensures SplitOn(a + [c] + b, c) == [a] + SplitOn(b, c)
  {
    if |a| == 0 {
      assert a + [c] + b == [c] + b;
      assert ([c] + b)[1..] == b;
    } else {
      assert (a + [c] + b)[1..] == a[1..] + [c] + b;
      assert (a + [c] + b)[0] == a[0];
      SplitAtFirst(a[1..], b, c);
      assert a == [a[0]] + a[1..];
    }
  }

  /** Joining pieces that all lack a character (other than the separator) gives a text that lacks it. */
  lemma {:induction false} JoinLacks(pieces: seq<string>, c: char, ch: char)
    requires |pieces| >= 1 && ch != c
    requires forall p <- pieces :: ch !in p
    ensures ch !in JoinWith(pieces, c)
  {
    if |pieces| > 1 {
      JoinLacks(pieces[1..], c, ch);
    }
  }

  /** Splitting a joined text gives the pieces back when none of them holds the separator. */
  lemma {:induction false} JoinSplit(pieces: seq<string>, c: char)
    requires |pieces| >= 1
    requires forall p <- pieces :: c !in p
    ensures SplitOn(JoinWith(pieces, c), c) == pieces
  {
    if |pieces| == 1 {
      SplitNoSeparator(pieces[0], c);
    } else {
      JoinSplit(pieces[1..], c);
      SplitAtFirst(pieces[0], JoinWith(pieces[1..], c), c);
    }
  }

  lemma {:induction false} JoinAppend(d1: seq<string>, d2: seq<string>, c: char)
    requires |d1| >= 1 && |d2| >= 1
    ensures JoinWith(d1, c) + [c] + JoinWith(d2, c) == JoinWith(d1 + d2, c)
  {
    if |d1| > 1 {
      JoinAppend(d1[1..], d2, c);
      assert (d1 + d2)[1..] == d1[1..] + d2;
    } else {
      assert (d1 + d2)[1..] == d2;
    }
  }

  lemma {:induction false} NonEmptyKeepsAll(xs: seq<string>)
    requires forall x <- xs :: x != ""
    ensures NonEmpty(xs) == xs
  {
    if |xs| > 0 {
      assert forall x <- xs[1..] :: x in xs;
      assert xs[0] in xs;
      NonEmptyKeepsAll(xs[1..]);
      assert xs == [xs[0]] + xs[1..];
    }
  }

  /** A rule `target: d1 d2 ... dn` gives its dependencies in order, duplicates included. */
  lemma RuleLineTokens(target: string, deps: seq<string>)
    requires ':' !in target && |deps| >= 1
    requires forall d <- deps :: d != "" && ' ' !in d && ':' !in d
    ensures LineTokens(target + ": " + JoinWith(deps, ' ')) == Done(deps)
  {
    RuleLineFields(target, deps);
    TokensFromFields(target + ": " + JoinWith(deps, ' '), target, [' '] + JoinWith(deps, ' '), deps);
  }

  lemma RuleLineFields(target: string, deps: seq<string>)
    requires ':' !in target && |deps| >= 1
    requires forall d <- deps :: d != "" && ' ' !in d && ':' !in d
    ensures SplitOn(target + ": " + JoinWith(deps, ' '), ':') == [target, [' '] + JoinWith(deps, ' ')]
    ensures NonEmpty(SplitOn([' '] + JoinWith(deps, ' '), ' ')) == deps
  {
    RuleLineColon(target, deps);
    RuleLineSpaces(deps);
  }

  /** The colon of a rule line splits it into the target and the space-led dependency text. */
  lemma RuleLineColon(target: string, deps: seq<string>)
    requires ':' !in target && |deps| >= 1
    requires forall d <- deps :: ':' !in d
    ensures SplitOn(target + ": " + JoinWith(deps, ' '), ':') == [target, [' '] + JoinWith(deps, ' ')]
  {
    var joined := JoinWith(deps, ' ');
    var field := [' '] + joined;
    assert target + ": " + joined == target + [':'] + field;
    JoinLacks(deps, ' ', ':');
    SplitAtFirst(target, field, ':');
    SplitNoSeparator(field, ':');
  }

  /** The non-empty words of the space-led dependency text are the dependencies. */
  lemma RuleLineSpaces(deps: seq<string>)
    requires |deps| >= 1
    requires forall d <- deps :: d != "" && ' ' !in d
    ensures NonEmpty(SplitOn([' '] + JoinWith(deps, ' '), ' ')) == deps
  {
    var joined := JoinWith(deps, ' ');
    assert [' '] + joined == [] + [' '] + joined;
    SplitAtFirst([], joined, ' ');
    JoinSplit(deps, ' ');
    NonEmptyKeepsAll(deps);
  }

  lemma TokensFromFields(line: string, target: string, field: string, deps: seq<string>)
    requires SplitOn(line, ':') == [target, field]
    requires NonEmpty(SplitOn(field, ' ')) == deps
    ensures LineTokens(line) == Done(deps)
  {
  }

  /**
   * A rule continued over two lines with a backslash gives the dependencies
   * of both lines as if they were on one line (`a.o: a.cc b.h \` newline
   * `c.h` gives `[a.cc, b.h, c.h]`).
   */
  lemma ContinuedRule(target: string, first: seq<string>, second: seq<string>)
    requires ':' !in target && '\\' !in target && '\n' !in target
    requires |first| >= 1 && |second| >= 1
    requires forall d <- first + second :: d != "" && ' ' !in d && ':' !in d && '\\' !in d && '\n' !in d
    ensures ParseDependencies(target + ": " + JoinWith(first, ' ') + " \\\n" + JoinWith(second, ' ') + "\n")
      == Done(first + second)
  {
    var raw := target + ": " + JoinWith(first, ' ') + " \\\n" + JoinWith(second, ' ') + "\n";
    var line := target + ": " + JoinWith(first + second, ' ');
    ContinuationJoinsLines(target, first, second, raw, line);
    SingleLineManifest(raw, line);
    RuleLineTokens(target, first + second);
    ParseOneLine(raw, line, first + second);
  }

  lemma ParseOneLine(raw: string, line: string, deps: seq<string>)
    requires ManifestLines(raw) == [line]
    requires LineTokens(line) == Done(deps)
    ensures ParseDependencies(raw) == Done(deps)
  {
    assert [line][1..] == [];
    assert ParseLines([line]) == Done(deps + []);
    assert deps + [] == deps;
  }

  /** Removing the continuation leaves one rule line holding both lines' dependencies. */
  lemma ContinuationJoinsLines(target: string, first: seq<string>, second: seq<string>, raw: string, line: string)
    requires '\\' !in target && '\n' !in target
    requires |first| >= 1 && |second| >= 1
    requires forall d <- first + second :: '\\' !in d && '\n' !in d
    requires raw == target + ": " + JoinWith(first, ' ') + " \\\n" + JoinWith(second, ' ') + "\n"
    requires line == target + ": " + JoinWith(first + second, ' ')
    ensures RemoveContinuations(raw) == line + ['\n']
    ensures '\n' !in line && line != ""
  {
    var j1, j2 := JoinWith(first, ' '), JoinWith(second, ' ');
    var head := target + ": " + j1 + " ";
    var tail := j2 + "\n";
    assert '\\' !in head by {
      assert forall d <- first :: d in first + second;
      JoinLacks(first, ' ', '\\');
    }
    assert '\\' !in tail by {
      assert forall d <- second :: d in first + second;
      JoinLacks(second, ' ', '\\');
    }
    RemoveOneContinuation(head, tail);
    RegroupRaw(target, j1, j2);
    JoinAppend(first, second, ' ');
    RegroupLine(target, j1, j2, JoinWith(first + second, ' '));
    assert '\n' !in line by {
      JoinLacks(first + second, ' ', '\n');
    }
  }

  lemma RegroupRaw(target: string, j1: string, j2: string)
    ensures target + ": " + j1 + " \\\n" + j2 + "\n" == (target + ": " + j1 + " ") + "\\\n" + (j2 + "\n")
  {
  }

  lemma RegroupLine(target: string, j1: string, j2: string, j: string)
    requires j == j1 + [' '] + j2
    ensures (target + ": " + j1 + " ") + (j2 + "\n") == target + ": " + j + ['\n']
  {
  }

  lemma RemoveOneContinuation(head: string, tail: string)
    requires '\\' !in head && '\\' !in tail
    ensures RemoveContinuations(head + "\\\n" + tail) == head + tail
  {
    ContinuationRemoved(head, tail);
    NoBackslashKept(tail);
  }

  /** A text that is one non-empty line and its newline is a manifest of that one line. */
  lemma SingleLineManifest(raw: string, line: string)
    requires RemoveContinuations(raw) == line + ['\n']
    requires '\n' !in line && line != ""
    ensures ManifestLines(raw) == [line]
  {
    assert line + ['\n'] == line + ['\n'] + [];
    SplitAtFirst(line, [], '\n');
    assert SplitOn([], '\n') == [""];
    assert NonEmpty([line, ""]) == [line];
  }

  /** Only the field between the first and the second ':' of a line is read. */
  lemma SecondColonIgnored(target: string, field: string, rest: string)
    requires ':' !in target && ':' !in field
    ensures LineTokens(target + [':'] + field + [':'] + rest) == Done(NonEmpty(SplitOn(field, ' ')))
  {
    var line := target + [':'] + field + [':'] + rest;
    SecondColonFields(target, field, rest, line);
    TokensOfSecondField(line, field);
  }

  lemma SecondColonFields(target: string, field: string, rest: string, line: string)
    requires ':' !in target && ':' !in field
    requires line == target + [':'] + field + [':'] + rest
    ensures |SplitOn(line, ':')| >= 2 && SplitOn(line, ':')[1] == field
  {
    assert line == target + [':'] + (field + [':'] + rest);
    SplitAtFirst(target, field + [':'] + rest, ':');
    SplitAtFirst(field, rest, ':');
  }

  lemma TokensOfSecondField(line: string, field: string)
    requires |SplitOn(line, ':')| >= 2 && SplitOn(line, ':')[1] == field
    ensures LineTokens(line) == Done(NonEmpty(SplitOn(field, ' ')))
  {
  }

  /** A one-line manifest whose line has no ':' makes the script raise instead of forcing a rebuild. */
  lemma MissingColonRaises(line: string)
    requires line != "" && ':' !in line && '\\' !in line && '\n' !in line
    ensures ParseDependencies(line + "\n").Raised?
  {
    var raw := line + "\n";
    assert '\\' !in raw;
    NoBackslashKept(raw);
    assert raw == line + ['\n'] + "";
    SplitAtFirst(line, "", '\n');
    assert line in SplitOn(raw, '\n');
    assert line in ManifestLines(raw);
  }

  // ---------------------------------------------------------------------
  // needs_build

  predicate IsFile(fs: FileMap, p: string)
  {
    p in fs && fs[p].File?
  }

  /**
   * The loop over the listed dependencies: true at the first one modified no
   * earlier than the object, FileNotFound at the first one missing.
   */
  function AnyNewer(fs: FileMap, deps: seq<string>, objTime: int): (r: Outcome<bool>)
    ensures r == Done(false) <==> forall d <- deps :: d in fs && fs[d].mtime < objTime
    ensures r == Done(true) ==>
      exists i :: 0 <= i < |deps| && deps[i] in fs && fs[deps[i]].mtime >= objTime &&
        (forall j :: 0 <= j < i ==> deps[j] in fs && fs[deps[j]].mtime < objTime)
    ensures r.Raised? ==> (r.error.FileNotFound? &&
      exists i :: 0 <= i < |deps| && deps[i] !in fs && r.error.path == deps[i] &&
        (forall j :: 0 <= j < i ==> deps[j] in fs && fs[deps[j]].mtime < objTime))
  {
    if |deps| == 0 then Done(false)
    else if deps[0] !in fs then Raised(FileNotFound(deps[0]))
    else if fs[deps[0]].mtime >= objTime then Done(true)
    else
      var r := AnyNewer(fs, deps[1..], objTime);
      assert forall j :: 1 <= j < |deps| ==> deps[j] == deps[1..][j - 1];
      r
  }

  /**
   * `needs_build`: a missing manifest, a missing object, a source no older
   * than its manifest, or a dependency no older than the object forces a
   * rebuild; equal times count as stale.
   */
  function NeedsBuild(fs: FileMap, src: string, obj: string, dep: string): (r: Outcome<bool>)
    ensures !IsFile(fs, dep) ==> r == Done(true)
    ensures IsFile(fs, dep) && !IsFile(fs, obj) ==> r == Done(true)
    ensures IsFile(fs, dep) && IsFile(fs, obj) && src !in fs ==> r == Raised(FileNotFound(src))
    ensures IsFile(fs, dep) && IsFile(fs, obj) && src in fs && fs[src].mtime >= fs[dep].mtime ==>
      r == Done(true)
    ensures r == Done(false) <==>
      IsFile(fs, dep) && IsFile(fs, obj) && src in fs && fs[src].mtime < fs[dep].mtime &&
      ParseDependencies(fs[dep].contents).Done? &&
      forall d <- ParseDependencies(fs[dep].contents).value :: d in fs && fs[d].mtime < fs[obj].mtime
  {
    if !IsFile(fs, dep) then Done(true)
    else if !IsFile(fs, obj) then Done(true)
    else if src !in fs then Raised(FileNotFound(src))
    else if fs[src].mtime >= fs[dep].mtime then Done(true)
    else match ParseDependencies(fs[dep].contents)
      case Raised(e) => Raised(e)
      case Done(deps) => AnyNewer(fs, deps, fs[obj].mtime)
  }

  // ---------------------------------------------------------------------
  // Paths

  /** `s.rfind(c)`: the last index of `c`, or -1. */
  function LastIndexOf(s: string, c: char): (i: int)
    ensures -1 <= i < |s|
    ensures i >= 0 ==> s[i] == c && c !in s[i + 1..]
    ensures i == -1 ==> c !in s
  {
    if |s| == 0 then -1
    else if s[|s| - 1] == c then |s| - 1
    else
      var i := LastIndexOf(s[..|s| - 1], c);
      NotInAfter(s, i, c);
      i
  }

  /** A character absent from the front of a text after `i`, and not last, is absent after `i`. */
  lemma NotInAfter(s: string, i: int, c: char)
    requires |s| > 0 && -1 <= i < |s| - 1
    requires c !in s[..|s| - 1][i + 1..] && s[|s| - 1] != c
    ensures c !in s[i + 1..]
    ensures i == -1 ==> c !in s
  {
    assert s[i + 1..] == s[..|s| - 1][i + 1..] + [s[|s| - 1]];
    assert s[0..] == s;
  }

  predicate AllSlashes(s: string)
  {
    forall k :: 0 <= k < |s| ==> s[k] == '/'
  }

  /** `s.rstrip('/')`. */
  function StripTrailingSlashes(s: string): (r: string)
    ensures |r| <= |s| && r == s[..|r|]
    ensures |r| > 0 ==> r[|r| - 1] != '/'
    ensures AllSlashes(s[|r|..])
  {
    if |s| > 0 && s[|s| - 1] == '/' then StripTrailingSlashes(s[..|s| - 1]) else s
  }

  /** `os.path.dirname` (POSIX): everything before the last '/', without trailing slashes unless it is all slashes. */
  function DirName(p: string): (d: string)
    ensures |d| <= |p|
    ensures !AllSlashes(p) ==> |d| < |p|
    ensures '/' !in p ==> d == ""
  {
    var head := p[..LastIndexOf(p, '/') + 1];
    if head != "" && !AllSlashes(head) then StripTrailingSlashes(head) else head
  }

  /** `os.path.join(a, b)` (POSIX). */
  function PathJoin(a: string, b: string): (p: string)
    ensures |b| > 0 && b[0] == '/' ==> p == b
    ensures a == "" ==> p == b
    ensures (|b| == 0 || b[0] != '/') && a != "" && a[|a| - 1] != '/' ==> p == a + "/" + b
  {
    if |b| > 0 && b[0] == '/' then b
    else if a == "" || a[|a| - 1] == '/' then a + b
    else a + "/" + b
  }

  /** For a fixed directory, joining is one-to-one on relative names. */
  lemma PathJoinInjective(a: string, b1: string, b2: string)
    requires |b1| == 0 || b1[0] != '/'
    requires |b2| == 0 || b2[0] != '/'
    ensures PathJoin(a, b1) == PathJoin(a, b2) <==> b1 == b2
  {
    if PathJoin(a, b1) == PathJoin(a, b2) {
      var n := |PathJoin(a, b1)| - |b1|;
      assert b1 == PathJoin(a, b1)[n..];
      assert b2 == PathJoin(a, b2)[n..];
    }
  }

  /** `filename[:filename.rfind('.')]`; with no '.', the slice `[:-1]` drops the last character. */
  function BaseName(filename: string): (base: string)
    ensures '.' in filename ==>
      |base| < |filename| && base == filename[..|base|] && filename[|base|] == '.' && '.' !in filename[|base| + 1..]
    ensures '.' !in filename && |filename| > 0 ==> base == filename[..|filename| - 1]
  {
    var i := LastIndexOf(filename, '.');
    if i >= 0 then filename[..i]
    else if |filename| > 0 then filename[..|filename| - 1]
    else ""
  }

  function ManifestName(depDir: string, filename: string): string
  {
    PathJoin(depDir, BaseName(filename) + ".d")
  }

  function ObjectName(objDir: string, filename: string): string
  {
    PathJoin(objDir, BaseName(filename) + ".o")
  }

  /**
   * The manifest and the object of a source mirror its path under their own
   * directories, so sources with different bases never share an output, and
   * a manifest is never an object.
   */
  lemma OutputNamesMirrorSource(dir: string, f1: string, f2: string)
    requires |BaseName(f1)| == 0 || BaseName(f1)[0] != '/'
    requires |BaseName(f2)| == 0 || BaseName(f2)[0] != '/'
    ensures ManifestName(dir, f1) == ManifestName(dir, f2) <==> BaseName(f1) == BaseName(f2)
    ensures ObjectName(dir, f1) == ObjectName(dir, f2) <==> BaseName(f1) == BaseName(f2)
    ensures ManifestName(dir, f1) != ObjectName(dir, f2)
    ensures dir != "" && dir[|dir| - 1] != '/' ==>
      ManifestName(dir, f1) == dir + "/" + BaseName(f1) + ".d" &&
      ObjectName(dir, f1) == dir + "/" + BaseName(f1) + ".o"
  {
    var b1, b2 := BaseName(f1), BaseName(f2);
    JoinSuffixInjective(dir, b1, b2, ".d");
    JoinSuffixInjective(dir, b1, b2, ".o");
    JoinSuffixesDiffer(dir, b1, b2, ".d", ".o");
    if dir != "" && dir[|dir| - 1] != '/' {
      JoinUnderDirectory(dir, b1, ".d");
      JoinUnderDirectory(dir, b1, ".o");
    }
  }

  /** Below a directory without a trailing slash, a relative name is joined with one '/'. */
  lemma JoinUnderDirectory(dir: string, b: string, suffix: string)
    requires dir != "" && dir[|dir| - 1] != '/'
    requires |b| == 0 || b[0] != '/'
    requires |suffix| > 0 && suffix[0] != '/'
    ensures PathJoin(dir, b + suffix) == dir + "/" + b + suffix
  {
    assert |b + suffix| > 0 && (b + suffix)[0] != '/';
    assert dir + "/" + (b + suffix) == dir + "/" + b + suffix;
  }

  /** Paths joined from one directory and names with one suffix are equal exactly when the names are. */
  lemma JoinSuffixInjective(dir: string, b1: string, b2: string, suffix: string)
    requires |b1| == 0 || b1[0] != '/'
    requires |b2| == 0 || b2[0] != '/'
    requires |suffix| > 0 && suffix[0] != '/'
    ensures PathJoin(dir, b1 + suffix) == PathJoin(dir, b2 + suffix) <==> b1 == b2
  {
    PathJoinInjective(dir, b1 + suffix, b2 + suffix);
    if b1 + suffix == b2 + suffix {
      assert b1 == (b1 + suffix)[..|b1|];
    }
  }

  /** Paths joined from names whose suffixes end differently always differ. */
  lemma JoinSuffixesDiffer(dir: string, b1: string, b2: string, s1: string, s2: string)
    requires |s1| > 0 && |s2| > 0 && s1[|s1| - 1] != s2[|s2| - 1]
    ensures PathJoin(dir, b1 + s1) != PathJoin(dir, b2 + s2)
  {
    var m, o := PathJoin(dir, b1 + s1), PathJoin(dir, b2 + s2);
    assert m[|m| - 1] == s1[|s1| - 1] && o[|o| - 1] == s2[|s2| - 1];
  }

  /** The last `c` of `a + [c] + b` is the one after `a` when `b` has none. */
  lemma {:induction false} LastIndexAfter(a: string, c: char, b: string)
    requires c !in b
    ensures LastIndexOf(a + [c] + b, c) == |a|
    decreases |b|
  {
    var s := a + [c] + b;
    if |b| > 0 {
      assert s[..|s| - 1] == a + [c] + b[..|b| - 1];
      LastIndexAfter(a, c, b[..|b| - 1]);
    }
  }

  /** The base of a name is everything before its last extension. */
  lemma BaseNameOfExtension(stem: string, ext: string)
    requires '.' !in ext
    ensures BaseName(stem + ['.'] + ext) == stem
  {
    LastIndexAfter(stem, '.', ext);
    assert (stem + ['.'] + ext)[..|stem|] == stem;
  }

  /** The directory of `dir/name` is `dir`, for a name without '/'. */
  lemma DirNameOfChild(dir: string, name: string)
    requires dir != "" && dir[|dir| - 1] != '/' && '/' !in name
    ensures DirName(dir + ['/'] + name) == dir
  {
    var p := dir + ['/'] + name;
    LastIndexAfter(dir, '/', name);
    assert p[..|dir| + 1] == dir + ['/'];
    assert !AllSlashes(dir + ['/']) by {
      assert (dir + ['/'])[|dir| - 1] != '/';
    }
    assert (dir + ['/'])[..|dir|] == dir;
  }

  /** `is_cpp`: the name ends in `.cc`, `.cpp` or `.c`. */
  predicate IsCpp(name: string)
  {
    (|name| >= 3 && name[|name| - 3..] == ".cc") ||
    (|name| >= 4 && name[|name| - 4..] == ".cpp") ||
    (|name| >= 2 && name[|name| - 2..] == ".c")
  }

  /** `s[len('src/'):]`: Python slicing past the end gives "". */
  function DropSrcPrefix(s: string): (r: string)
    ensures |s| >= 4 && s[..4] == "src/" ==> "src/" + r == s
  {
    if |s| >= 4 then s[4..] else ""
  }

  /** The sources `build` considers: the `.cc`/`.cpp`/`.c` files of the listing, in listing order. */
  function CppSources(listing: seq<string>): (r: seq<string>)
    ensures forall s <- r :: IsCpp(s) && s in listing
    ensures forall s <- listing :: IsCpp(s) ==> s in r
  {
    if |listing| == 0 then []
    else if IsCpp(listing[0]) then [listing[0]] + CppSources(listing[1..])
    else CppSources(listing[1..])
  }

  /** `not ret`: `None` and 0 are success. */
  predicate Succeeded(ret: Option<int>)
  {
    ret.None? || ret.value == 0
  }

  datatype Option<T> = None | Some(value: T)

  // ---------------------------------------------------------------------
  // create_directory

  predicate IsDir(fs: FileMap, p: string)
  {
    (AllSlashes(p) && p != "") || (p in fs && fs[p].Dir?)
  }

  /** The directories `create_directory(p)` has to make, outermost first. */
  function Missing(fs: FileMap, p: string): (chain: seq<string>)
    ensures chain == [] <==> p == "" || IsDir(fs, p)
    ensures chain != [] ==> chain[|chain| - 1] == p
    ensures forall d <- chain :: |d| <= |p|
    decreases |p|
  {
    if p == "" || IsDir(fs, p) then []
    else
      var parent := Missing(fs, DirName(p));
      parent + [p]
  }

  /** Every directory of the chain is missing. */
  lemma {:induction false} MissingAreMissing(fs: FileMap, p: string)
    ensures forall d <- Missing(fs, p) :: d != "" && !IsDir(fs, d)
    decreases |p|
  {
    if !(p == "" || IsDir(fs, p)) {
      MissingAreMissing(fs, DirName(p));
    }
  }

  /** Each directory of the chain is the parent of the next. */
  lemma {:induction false} MissingParentsFirst(fs: FileMap, p: string)
    ensures ParentChain(Missing(fs, p))
    decreases |p|
  {
    if !(p == "" || IsDir(fs, p)) {
      var parent := Missing(fs, DirName(p));
      MissingParentsFirst(fs, DirName(p));
      assert Missing(fs, p) == parent + [p];
      ChainExtends(parent, p);
    }
  }

  /** Each entry of the sequence is the directory of the next. */
  predicate ParentChain(chain: seq<string>)
  {
    forall i, j {:trigger chain[i], chain[j]} :: 0 <= i < |chain| && j == i + 1 && j < |chain| ==> chain[i] == DirName(chain[j])
  }

  /** Appending `p` to a parent chain whose last entry is the directory of `p` keeps it a parent chain. */
  lemma ChainExtends(parent: seq<string>, p: string)
    requires ParentChain(parent)
    requires parent != [] ==> parent[|parent| - 1] == DirName(p)
    ensures ParentChain(parent + [p])
  {
    var chain := parent + [p];
    forall i, j | 0 <= i < |chain| && j == i + 1 && j < |chain|
      ensures chain[i] == DirName(chain[j])
    {
      if j < |parent| {
        assert chain[i] == parent[i] && chain[j] == parent[j];
      }
    }
  }

  /** The parent of the first directory of the chain is "" or already a directory. */
  lemma {:induction false} MissingStartsAtExisting(fs: FileMap, p: string)
    ensures var chain := Missing(fs, p);
      chain != [] ==> DirName(chain[0]) == "" || IsDir(fs, DirName(chain[0]))
    decreases |p|
  {
    if !(p == "" || IsDir(fs, p)) {
      var parent := Missing(fs, DirName(p));
      MissingStartsAtExisting(fs, DirName(p));
      assert Missing(fs, p) == parent + [p];
    }
  }

  /** The first directory of the chain whose place a file already takes. */
  function FirstClash(fs: FileMap, chain: seq<string>): (k: int)
    ensures 0 <= k <= |chain|
    ensures forall j :: 0 <= j < k ==> chain[j] !in fs
    ensures k < |chain| ==> chain[k] in fs
  {
    if |chain| == 0 then 0
    else if chain[0] in fs then 0
    else 1 + FirstClash(fs, chain[1..])
  }

  function DirsAt(dirs: seq<string>, t: int): (m: FileMap)
    ensures m.Keys == set d <- dirs
    ensures forall d <- m.Keys :: m[d] == Dir(t)
  {
    map d <- dirs :: Dir(t)
  }

  function CreatedEvents(dirs: seq<string>): (events: seq<Event>)
    ensures |events| == |dirs|
    ensures forall i :: 0 <= i < |dirs| ==> events[i] == Created(dirs[i])
  {
    if |dirs| == 0 then [] else [Created(dirs[0])] + CreatedEvents(dirs[1..])
  }

  /** The files after `create_directory(p)`: the chain up to the first clash is created. */
  function AfterCreate(fs: FileMap, p: string, t: int): FileMap
  {
    var chain := Missing(fs, p);
    fs + DirsAt(chain[..FirstClash(fs, chain)], t)
  }

  predicate CreateOk(fs: FileMap, p: string)
  {
    var chain := Missing(fs, p);
    FirstClash(fs, chain) == |chain|
  }

  /**
   * The directories `create_directory(p)` announces: the chain up to and
   * including the first clash, since the line is printed before `os.mkdir`
   * raises.
   */
  function Announced(fs: FileMap, chain: seq<string>): (dirs: seq<string>)
    ensures FirstClash(fs, chain) < |chain| ==> dirs == chain[..FirstClash(fs, chain) + 1]
    ensures FirstClash(fs, chain) == |chain| ==> dirs == chain
  {
    var k := FirstClash(fs, chain);
    if k < |chain| then chain[..k + 1] else chain
  }

  function CreateLog(fs: FileMap, p: string): seq<Event>
  {
    CreatedEvents(Announced(fs, Missing(fs, p)))
  }

  /** Once `create_directory(p)` has succeeded, `p` is a directory, so a second call has nothing to do. */
  lemma CreateIdempotent(fs: FileMap, p: string, t: int)
    requires CreateOk(fs, p)
    ensures Missing(AfterCreate(fs, p, t), p) == []
    ensures CreateOk(AfterCreate(fs, p, t), p)
    ensures AfterCreate(AfterCreate(fs, p, t), p, t) == AfterCreate(fs, p, t)
    ensures CreateLog(AfterCreate(fs, p, t), p) == []
  {
    var after := AfterCreate(fs, p, t);
    CreateKeepsExisting(fs, p, t);
    assert p == "" || IsDir(after, p);
    assert Missing(after, p) == [];
    NothingToCreate(after, p, t);
  }

  /** Nothing that existed is overwritten, and everything created is a directory. */
  lemma CreateKeepsExisting(fs: FileMap, p: string, t: int)
    ensures forall q <- fs :: q in AfterCreate(fs, p, t) && AfterCreate(fs, p, t)[q] == fs[q]
    ensures forall q <- AfterCreate(fs, p, t) :: q in fs || AfterCreate(fs, p, t)[q] == Dir(t)
    ensures CreateOk(fs, p) ==> IsDir(AfterCreate(fs, p, t), p) || p == ""
  {
    var chain := Missing(fs, p);
    var k := FirstClash(fs, chain);
    assert forall j :: 0 <= j < k ==> chain[..k][j] !in fs;
    if CreateOk(fs, p) && chain != [] {
      assert chain[..k] == chain;
      assert p in chain;
    }
  }

  /** The exception `create_directory(p)` lets escape: `os.mkdir` on the first clashing directory of the chain. */
  function CreateError(fs: FileMap, p: string): (err: Option<PyError>)
    ensures err.None? <==> CreateOk(fs, p)
    ensures err.Some? ==> err.value.FileExists? && err.value.path in fs && err.value.path in Missing(fs, p)
  {
    var chain := Missing(fs, p);
    var k := FirstClash(fs, chain);
    if k == |chain| then None else Some(FileExists(chain[k]))
  }

  /** For "" or an existing directory, `create_directory` changes nothing. */
  lemma NothingToCreate(fs: FileMap, p: string, t: int)
    requires p == "" || IsDir(fs, p)
    ensures CreateError(fs, p) == None && AfterCreate(fs, p, t) == fs && CreateLog(fs, p) == []
  {
    assert Missing(fs, p) == [];
    assert DirsAt([], t) == map[];
  }

  /** When making the parent fails, `create_directory(p)` fails the same way and stops there. */
  lemma CreateParentFails(fs: FileMap, p: string, t: int)
    requires p != "" && !IsDir(fs, p) && !CreateOk(fs, DirName(p))
    ensures CreateError(fs, p) == CreateError(fs, DirName(p))
    ensures AfterCreate(fs, p, t) == AfterCreate(fs, DirName(p), t)
    ensures CreateLog(fs, p) == CreateLog(fs, DirName(p))
  {
    var parentChain := Missing(fs, DirName(p));
    var chain := Missing(fs, p);
    assert chain == parentChain + [p];
    var k := FirstClash(fs, parentChain);
    ClashInPrefix(fs, parentChain, [p]);
    assert chain[..k] == parentChain[..k];
    assert chain[..k + 1] == parentChain[..k + 1];
    assert chain[k] == parentChain[k];
    CreateByPrefix(fs, p, DirName(p), t);
  }

  /** Making the parent's chain never touches `p` itself, since every directory in it is shorter. */
  lemma ParentChainAvoids(fs: FileMap, p: string, t: int)
    requires p != "" && !IsDir(fs, p)
    ensures p !in Missing(fs, DirName(p))
    ensures p in AfterCreate(fs, DirName(p), t) <==> p in fs
  {
    var parentChain := Missing(fs, DirName(p));
    var k := FirstClash(fs, parentChain);
    assert forall d <- parentChain[..k] :: d in parentChain;
  }

  /** Once the parent exists, a file already sitting at `p` makes `create_directory(p)` fail there. */
  lemma CreateOverFile(fs: FileMap, p: string, t: int)
    requires p != "" && !IsDir(fs, p) && CreateOk(fs, DirName(p)) && p in fs
    ensures CreateError(fs, p) == Some(FileExists(p))
    ensures AfterCreate(fs, p, t) == AfterCreate(fs, DirName(p), t)
    ensures CreateLog(fs, p) == CreateLog(fs, DirName(p)) + [Created(p)]
  {
    var parentChain := Missing(fs, DirName(p));
    var chain := Missing(fs, p);
    assert chain == parentChain + [p];
    ClashAfterPrefix(fs, parentChain, p);
    var k := |parentChain|;
    assert FirstClash(fs, chain) == k == FirstClash(fs, parentChain);
    assert chain[k] == p;
    assert chain[..k] == parentChain[..k];
    assert parentChain[..k] == parentChain;
    assert chain[..k + 1] == chain;
    CreatedEventsAppend(parentChain, p);
    CreateByPrefix(fs, p, DirName(p), t);
  }

  /** Two calls that create the same prefix of their chains leave the same files and the same log. */
  lemma CreateByPrefix(fs: FileMap, p: string, q: string, t: int)
    requires Missing(fs, p)[..FirstClash(fs, Missing(fs, p))] == Missing(fs, q)[..FirstClash(fs, Missing(fs, q))]
    ensures AfterCreate(fs, p, t) == AfterCreate(fs, q, t)
  {
  }

  /** Once the parent exists and nothing sits at `p`, `create_directory(p)` adds `p` and its log line. */
  lemma CreateLast(fs: FileMap, p: string, t: int)
    requires p != "" && !IsDir(fs, p) && CreateOk(fs, DirName(p)) && p !in fs
    ensures CreateError(fs, p) == None
    ensures AfterCreate(fs, p, t) == AfterCreate(fs, DirName(p), t)[p := Dir(t)]
    ensures CreateLog(fs, p) == CreateLog(fs, DirName(p)) + [Created(p)]
  {
    var parentChain := Missing(fs, DirName(p));
    var chain := Missing(fs, p);
    assert chain == parentChain + [p];
    ClashAfterPrefix(fs, parentChain, p);
    assert Announced(fs, chain) == chain;
    assert Announced(fs, parentChain) == parentChain;
    assert chain[..|chain|] == chain;
    assert parentChain[..|parentChain|] == parentChain;
    CreatedEventsAppend(parentChain, p);
    DirsAtAppend(fs, parentChain, p, t);
  }

  lemma CreatedEventsAppend(dirs: seq<string>, d: string)
    ensures CreatedEvents(dirs + [d]) == CreatedEvents(dirs) + [Created(d)]
  {
    var e1, e2 := CreatedEvents(dirs + [d]), CreatedEvents(dirs) + [Created(d)];
    assert |e1| == |e2|;
    forall i | 0 <= i < |e1| ensures e1[i] == e2[i] {
      assert e1[i] == Created((dirs + [d])[i]);
    }
  }

  lemma DirsAtAppend(fs: FileMap, dirs: seq<string>, d: string, t: int)
    ensures fs + DirsAt(dirs + [d], t) == (fs + DirsAt(dirs, t))[d := Dir(t)]
  {
    var m1, m2 := fs + DirsAt(dirs + [d], t), (fs + DirsAt(dirs, t))[d := Dir(t)];
    assert (set x <- dirs + [d]) == (set x <- dirs) + {d};
    assert m1.Keys == m2.Keys;
    assert forall q <- m1.Keys :: m1[q] == m2[q];
  }

  /** What `create_directory` returns, the files it leaves and the lines it logs. */
  datatype Mkdir = Mkdir(err: Option<PyError>, files: FileMap, events: seq<Event>)

  /** `create_directory(p)` step by step, as the script recurses. */
  function CreateRun(fs: FileMap, p: string, t: int): (m: Mkdir)
    ensures AllCreated(m.events)
    decreases |p|
  {
    if p == "" || IsDir(fs, p) then Mkdir(None, fs, [])
    else
      var parent := CreateRun(fs, DirName(p), t);
      if parent.err.Some? then parent
      else if p in parent.files then Mkdir(Some(FileExists(p)), parent.files, parent.events + [Created(p)])
      else
        assert forall e <- parent.events + [Created(p)] :: e in parent.events || e == Created(p);
        Mkdir(None, parent.files[p := Dir(t)], parent.events + [Created(p)])
  }

  /**
   * The recursion makes exactly the missing ancestors of `p`, outermost
   * first, up to the first one a file already occupies, and raises there.
   */
  lemma {:induction false} CreateRunFollowsChain(fs: FileMap, p: string, t: int)
    ensures CreateRun(fs, p, t) == Mkdir(CreateError(fs, p), AfterCreate(fs, p, t), CreateLog(fs, p))
    decreases |p|
  {
    if p == "" || IsDir(fs, p) {
      NothingToCreate(fs, p, t);
    } else {
      CreateRunFollowsChain(fs, DirName(p), t);
      if !CreateOk(fs, DirName(p)) {
        CreateParentFails(fs, p, t);
      } else {
        ParentChainAvoids(fs, p, t);
        if p in fs {
          CreateOverFile(fs, p, t);
        } else {
          CreateLast(fs, p, t);
        }
      }
    }
  }

  /** Nothing that existed is overwritten; on success `p` is a directory; a second call does nothing. */
  lemma CreateRunProperties(fs: FileMap, p: string, t: int)
    ensures var m := CreateRun(fs, p, t);
      (forall q <- fs :: q in m.files && m.files[q] == fs[q]) &&
      (forall q <- m.files :: q in fs || m.files[q] == Dir(t)) &&
      (m.err.None? ==> p == "" || IsDir(m.files, p)) &&
      (m.err.None? ==> CreateRun(m.files, p, t) == Mkdir(None, m.files, []))
  {
    CreateRunFollowsChain(fs, p, t);
    CreateKeepsExisting(fs, p, t);
    var m := CreateRun(fs, p, t);
    if m.err.None? {
      CreateIdempotent(fs, p, t);
      CreateRunFollowsChain(m.files, p, t);
    }
  }

  /** Only `Created` events. */
  predicate AllCreated(events: seq<Event>)
  {
    forall e <- events :: e.Created?
  }

  // ---------------------------------------------------------------------
  // build_object and build as functions of the filesystem snapshot

  /** What one step of the script returns, the files it leaves, and the events it adds to the log. */
  datatype Run<T> = Run(result: Outcome<T>, files: FileMap, events: seq<Event>)

  /** The manifest, object and source paths `build_object` derives from a source name. */
  function OutputNames(filename: string, srcDir: string, objDir: string, depDir: string): (names: (string, string, string))
    ensures names.0 == ManifestName(depDir, filename)
    ensures names.1 == ObjectName(objDir, filename)
    ensures names.2 == PathJoin(srcDir, filename)
  {
    (ManifestName(depDir, filename), ObjectName(objDir, filename), PathJoin(srcDir, filename))
  }

  /**
   * `build_object` for a manifest `dep`, an object `obj` and a source `src`
   * on the snapshot `fs`: the manifest's directory, then the object's, then
   * the compiler, only if `needs_build` says so. `None` stands for the
   * function falling off its end.
   */
  function ObjectRun(fs: FileMap, t: int, dep: string, obj: string, src: string,
                     compile: (string, string, string) -> int): Run<Option<int>>
  {
    var m1 := CreateRun(fs, DirName(dep), t);
    match m1.err
    case Some(e) => Run(Raised(e), m1.files, m1.events)
    case None =>
      var m2 := CreateRun(m1.files, DirName(obj), t);
      var made := m1.events + m2.events;
      match m2.err
      case Some(e) => Run(Raised(e), m2.files, made)
      case None =>
        var c := CompileIfNeeded(m2.files, dep, obj, src, compile);
        Run(c.result, c.files, made + c.events)
  }

  /** The last part of `build_object`: the compiler runs only when `needs_build` says so. */
  function CompileIfNeeded(fs: FileMap, dep: string, obj: string, src: string,
                           compile: (string, string, string) -> int): Run<Option<int>>
  {
    match NeedsBuild(fs, src, obj, dep)
    case Raised(e) => Run(Raised(e), fs, [])
    case Done(needed) =>
      if needed then
        var code := compile(dep, obj, src);
        Run(Done(Some(code)), fs, [Compiled(dep, obj, src, code)])
      else Run(Done(None), fs, [])
  }

  /** The names `build` hands to `build_object`: each C/C++ file of the listing without its `src/` prefix. */
  function SourceNames(listing: seq<string>): (names: seq<string>)
    ensures |names| == |CppSources(listing)|
    ensures forall i :: 0 <= i < |names| ==> names[i] == DropSrcPrefix(CppSources(listing)[i])
  {
    var sources := CppSources(listing);
    seq(|sources|, i requires 0 <= i < |sources| => DropSrcPrefix(sources[i]))
  }

  /**
   * The loop of `build` over the first names: `build_object` on each in
   * turn, each seeing the files the previous ones left, with `success`
   * the conjunction of `not ret`. An exception ends the loop.
   */
  function ObjectsRun(fs: FileMap, t: int, names: seq<string>, srcDir: string, objDir: string, depDir: string,
                      compile: (string, string, string) -> int): Run<bool>
    decreases |names|
  {
    if names == [] then Run(Done(true), fs, [])
    else
      var prev := ObjectsRun(fs, t, names[..|names| - 1], srcDir, objDir, depDir, compile);
      if prev.result.Raised? then prev
      else
        var paths := OutputNames(names[|names| - 1], srcDir, objDir, depDir);
        var step := ObjectRun(prev.files, t, paths.0, paths.1, paths.2, compile);
        match step.result
        case Raised(e) => Run(Raised(e), step.files, prev.events + step.events)
        case Done(ret) => Run(Done(prev.result.value && Succeeded(ret)), step.files, prev.events + step.events)
  }

  /**
   * `build(exec_name, ...)`: the sources are always listed under `src`,
   * whatever `srcDir` is; a failed compilation skips the link, and the
   * linker's exit status is not looked at. The result says whether the
   * link ran. `list` is `list_files_recursive` on a snapshot.
   */
  function BuildRun(fs: FileMap, t: int, execName: string, srcDir: string, objDir: string, depDir: string,
                    binDir: string, list: (FileMap, string) -> seq<string>,
                    compile: (string, string, string) -> int): Run<bool>
  {
    match ListFiles(fs, "src", list)
    case Raised(e) => Run(Raised(e), fs, [])
    case Done(listing) =>
      var names := SourceNames(listing);
      LinkIfBuilt(ObjectsRun(fs, t, names, srcDir, objDir, depDir, compile), t, PathJoin(binDir, execName), objDir, list)
  }

  /**
   * `list_files_recursive(dir)`: `os.listdir` raises unless `dir` is a
   * directory. Below it the recursion only descends into directories, so
   * nothing else raises; `list` gives the files found, in its own order.
   */
  function ListFiles(fs: FileMap, dir: string, list: (FileMap, string) -> seq<string>): (r: Outcome<seq<string>>)
    ensures r.Done? <==> IsDir(fs, dir)
    ensures r.Raised? && dir in fs ==> r.error == NotADirectory(dir)
    ensures r.Raised? && dir !in fs ==> r.error == FileNotFound(dir)
  {
    if IsDir(fs, dir) then Done(list(fs, dir))
    else if dir in fs then Raised(NotADirectory(dir))
    else Raised(FileNotFound(dir))
  }

  /** The end of `build`, after the loop: its events follow those of the loop. */
  function LinkIfBuilt(objs: Run<bool>, t: int, bin: string, objDir: string,
                       list: (FileMap, string) -> seq<string>): Run<bool>
  {
    var tail := LinkTail(objs.result, objs.files, t, bin, objDir, list);
    Run(tail.result, tail.files, objs.events + tail.events)
  }

  /**
   * What `build` does once the loop has ended with `built`: the failure
   * message, or the binary's directory and the link command.
   */
  function LinkTail(built: Outcome<bool>, fs: FileMap, t: int, bin: string, objDir: string,
                    list: (FileMap, string) -> seq<string>): Run<bool>
  {
    match built
    case Raised(e) => Run(built, fs, [])
    case Done(success) =>
      if !success then Run(Done(false), fs, [CompilationFailed])
      else
        match ListFiles(fs, objDir, list)
        case Raised(e) => Run(Raised(e), fs, [])
        case Done(objects) =>
          var m := CreateRun(fs, DirName(bin), t);
          match m.err
          case Some(e) => Run(Raised(e), m.files, m.events)
          case None => Run(Done(true), m.files, m.events + [Linked(objects, bin)])
  }

  // ---------------------------------------------------------------------
  // What build_object and build promise

  /**
   * One object's events: directory creations, then at most one compiler
   * run, which is the last event and is for this object.
   */
  lemma ObjectRunEvents(fs: FileMap, t: int, dep: string, obj: string, src: string,
                        compile: (string, string, string) -> int)
    ensures OneObjectEvents(ObjectRun(fs, t, dep, obj, src, compile).events, dep, obj, src, compile)
  {
    var m1 := CreateRun(fs, DirName(dep), t);
    var m2 := CreateRun(m1.files, DirName(obj), t);
    var made := m1.events + m2.events;
    AllCreatedAppend(m1.events, m2.events);
    if m1.err.None? && m2.err.None? {
      var fs2 := m2.files;
      var c := CompileIfNeeded(fs2, dep, obj, src, compile);
      assert ObjectRun(fs, t, dep, obj, src, compile) == Run(c.result, c.files, made + c.events);
      CompileIfNeededEvents(fs2, dep, obj, src, made, compile);
    }
  }

  lemma AllCreatedAppend(a: seq<Event>, b: seq<Event>)
    requires AllCreated(a) && AllCreated(b)
    ensures AllCreated(a + b)
  {
    assert forall e <- a + b :: e in a || e in b;
  }

  /** Directory creations, then at most one compiler run, which is the last event and is for this object. */
  predicate OneObjectEvents(events: seq<Event>, dep: string, obj: string, src: string,
                            compile: (string, string, string) -> int)
  {
    forall i :: 0 <= i < |events| ==>
      events[i].Created? ||
      (i == |events| - 1 && events[i] == Compiled(dep, obj, src, compile(dep, obj, src)))
  }

  lemma CompileIfNeededEvents(fs: FileMap, dep: string, obj: string, src: string, made: seq<Event>,
                              compile: (string, string, string) -> int)
    requires AllCreated(made)
    ensures OneObjectEvents(made + CompileIfNeeded(fs, dep, obj, src, compile).events, dep, obj, src, compile)
  {
    var run := CompileIfNeeded(fs, dep, obj, src, compile);
    assert run.events == [] || run.events == [Compiled(dep, obj, src, compile(dep, obj, src))];
  }

  /** A compiler run among the events. */
  predicate HasCompiled(events: seq<Event>)
  {
    exists i :: 0 <= i < |events| && events[i].Compiled?
  }

  /**
   * The compiler runs exactly when `build_object` returns an exit code,
   * which is when `needs_build` says the object is stale on the files the
   * directory creation left; `None` means `needs_build` said it was up to date.
   */
  lemma ObjectRunCompilesOnlyWhenNeeded(fs: FileMap, t: int, dep: string, obj: string, src: string,
                                        compile: (string, string, string) -> int)
    ensures var run := ObjectRun(fs, t, dep, obj, src, compile);
      (HasCompiled(run.events) <==> run.result.Done? && run.result.value.Some?) &&
      (run.result == Done(None) <==>
        CreateRun(fs, DirName(dep), t).err.None? &&
        CreateRun(CreateRun(fs, DirName(dep), t).files, DirName(obj), t).err.None? &&
        NeedsBuild(run.files, src, obj, dep) == Done(false)) &&
      (run.result.Done? && run.result.value.Some? ==>
        NeedsBuild(run.files, src, obj, dep) == Done(true) && run.result.value.value == compile(dep, obj, src))
  {
    var m1 := CreateRun(fs, DirName(dep), t);
    var m2 := CreateRun(m1.files, DirName(obj), t);
    var made := m1.events + m2.events;
    AllCreatedAppend(m1.events, m2.events);
    if m1.err.None? && m2.err.None? {
      var fs2 := m2.files;
      var c := CompileIfNeeded(fs2, dep, obj, src, compile);
      assert ObjectRun(fs, t, dep, obj, src, compile) == Run(c.result, c.files, made + c.events);
      CompileIfNeededResult(fs2, dep, obj, src, made, compile);
    } else {
      var run := ObjectRun(fs, t, dep, obj, src, compile);
      assert run.events == m1.events || run.events == made;
      CreatedOnlyIsNotCompiled(run.events);
    }
  }

  lemma CreatedOnlyIsNotCompiled(events: seq<Event>)
    requires AllCreated(events)
    ensures !HasCompiled(events)
  {
    assert forall i :: 0 <= i < |events| ==> events[i] in events;
  }

  lemma CompileIfNeededResult(fs: FileMap, dep: string, obj: string, src: string, made: seq<Event>,
                              compile: (string, string, string) -> int)
    requires AllCreated(made)
    ensures var run := CompileIfNeeded(fs, dep, obj, src, compile);
      run.files == fs &&
      (HasCompiled(made + run.events) <==> run.result.Done? && run.result.value.Some?) &&
      (run.result == Done(None) <==> NeedsBuild(fs, src, obj, dep) == Done(false)) &&
      (run.result.Done? && run.result.value.Some? ==>
        NeedsBuild(fs, src, obj, dep) == Done(true) && run.result.value.value == compile(dep, obj, src))
  {
    var run := CompileIfNeeded(fs, dep, obj, src, compile);
    if run.result.Done? && run.result.value.Some? {
      assert (made + run.events)[|made|].Compiled?;
    } else {
      assert made + run.events == made;
      CreatedOnlyIsNotCompiled(made);
    }
  }

  /** When `build_object` returns, the manifest's and the object's directories exist, and no file was lost. */
  lemma ObjectRunMakesDirectories(fs: FileMap, t: int, dep: string, obj: string, src: string,
                                  compile: (string, string, string) -> int)
    ensures var run := ObjectRun(fs, t, dep, obj, src, compile);
      (run.result.Done? ==>
        (DirName(dep) == "" || IsDir(run.files, DirName(dep))) &&
        (DirName(obj) == "" || IsDir(run.files, DirName(obj)))) &&
      (forall q <- fs :: q in run.files && run.files[q] == fs[q])
  {
    var m1 := CreateRun(fs, DirName(dep), t);
    CreateRunProperties(fs, DirName(dep), t);
    if m1.err.None? {
      var m2 := CreateRun(m1.files, DirName(obj), t);
      CreateRunProperties(m1.files, DirName(obj), t);
      KeptThrough(fs, m1.files, m2.files);
      if DirName(dep) != "" {
        DirKept(m1.files, m2.files, DirName(dep));
      }
      if m2.err.None? {
        assert CompileIfNeeded(m2.files, dep, obj, src, compile).files == m2.files;
      }
    }
  }

  /** A directory stays one in files that keep every existing entry. */
  lemma DirKept(f1: FileMap, f2: FileMap, p: string)
    requires IsDir(f1, p)
    requires forall q <- f1 :: q in f2 && f2[q] == f1[q]
    ensures IsDir(f2, p)
  {
  }

  /** What two steps each keep, both together keep. */
  lemma KeptThrough(fs: FileMap, f1: FileMap, f2: FileMap)
    requires forall q <- fs :: q in f1 && f1[q] == fs[q]
    requires forall q <- f1 :: q in f2 && f2[q] == f1[q]
    ensures forall q <- fs :: q in f2 && f2[q] == fs[q]
  {
  }

  /** No link and no failure message among the events: only creations and compiler runs. */
  predicate OnlyObjectEvents(events: seq<Event>)
  {
    forall e <- events :: e.Created? || e.Compiled?
  }

  /** Every compiler run among the events exited with 0. */
  predicate AllCompiledOk(events: seq<Event>)
  {
    forall e <- events :: e.Compiled? ==> e.code == 0
  }

  /** Every compiler run among the events is for one of the names, with the paths `build_object` derives. */
  predicate CompiledFrom(events: seq<Event>, names: seq<string>, srcDir: string, objDir: string, depDir: string)
  {
    forall e <- events :: e.Compiled? ==>
      exists n <- names :: (e.dep, e.obj, e.src) == OutputNames(n, srcDir, objDir, depDir)
  }

  lemma EventsAppend(a: seq<Event>, b: seq<Event>, names: seq<string>, srcDir: string, objDir: string, depDir: string)
    ensures OnlyObjectEvents(a + b) <==> OnlyObjectEvents(a) && OnlyObjectEvents(b)
    ensures AllCompiledOk(a + b) <==> AllCompiledOk(a) && AllCompiledOk(b)
    ensures CompiledFrom(a + b, names, srcDir, objDir, depDir) <==>
      CompiledFrom(a, names, srcDir, objDir, depDir) && CompiledFrom(b, names, srcDir, objDir, depDir)
  {
    assert forall e <- a + b :: e in a || e in b;
    assert forall e <- a :: e in a + b;
    assert forall e <- b :: e in a + b;
  }

  /** What one call of `build_object` adds to the loop's log, and how its result is counted. */
  lemma ObjectRunSummary(fs: FileMap, t: int, dep: string, obj: string, src: string,
                         compile: (string, string, string) -> int)
    ensures var step := ObjectRun(fs, t, dep, obj, src, compile);
      OnlyObjectEvents(step.events) &&
      (forall e <- step.events :: e.Compiled? ==> (e.dep, e.obj, e.src) == (dep, obj, src)) &&
      (step.result.Done? ==> (Succeeded(step.result.value) <==> AllCompiledOk(step.events)))
  {
    var step := ObjectRun(fs, t, dep, obj, src, compile);
    ObjectRunEvents(fs, t, dep, obj, src, compile);
    ObjectRunCompilesOnlyWhenNeeded(fs, t, dep, obj, src, compile);
    OneObjectSummary(step.events, step.result, dep, obj, src, compile);
  }

  lemma OneObjectSummary(events: seq<Event>, result: Outcome<Option<int>>, dep: string, obj: string, src: string,
                         compile: (string, string, string) -> int)
    requires OneObjectEvents(events, dep, obj, src, compile)
    requires HasCompiled(events) <==> result.Done? && result.value.Some?
    requires result.Done? && result.value.Some? ==> result.value.value == compile(dep, obj, src)
    ensures OnlyObjectEvents(events)
    ensures forall e <- events :: e.Compiled? ==> (e.dep, e.obj, e.src) == (dep, obj, src)
    ensures result.Done? ==> (Succeeded(result.value) <==> AllCompiledOk(events))
  {
    assert forall e <- events :: e.Created? || e == Compiled(dep, obj, src, compile(dep, obj, src)) by {
      forall e <- events
        ensures e.Created? || e == Compiled(dep, obj, src, compile(dep, obj, src))
      {
        var i :| 0 <= i < |events| && events[i] == e;
      }
    }
    if result.Done? && result.value.Some? {
      var i :| 0 <= i < |events| && events[i].Compiled?;
      assert events[i].code == result.value.value;
    }
  }

  /** Compiler runs all for the paths of one listed name are compiler runs for the names. */
  lemma CompiledFromOne(events: seq<Event>, name: string, names: seq<string>, srcDir: string, objDir: string,
                        depDir: string)
    requires name in names
    requires forall e <- events :: e.Compiled? ==> (e.dep, e.obj, e.src) == OutputNames(name, srcDir, objDir, depDir)
    ensures CompiledFrom(events, names, srcDir, objDir, depDir)
  {
  }

  /**
   * The loop of `build`: only creations and compiler runs, each compiler
   * run for one of the names, and `success` holds exactly when every
   * compiler run exited with 0.
   */
  lemma {:induction false} ObjectsRunSummary(fs: FileMap, t: int, names: seq<string>, srcDir: string, objDir: string,
                                             depDir: string, compile: (string, string, string) -> int)
    ensures var run := ObjectsRun(fs, t, names, srcDir, objDir, depDir, compile);
      OnlyObjectEvents(run.events) &&
      CompiledFrom(run.events, names, srcDir, objDir, depDir) &&
      (run.result.Done? ==> (run.result.value <==> AllCompiledOk(run.events)))
    decreases |names|
  {
    if names != [] {
      var init := names[..|names| - 1];
      var prev := ObjectsRun(fs, t, init, srcDir, objDir, depDir, compile);
      ObjectsRunSummary(fs, t, init, srcDir, objDir, depDir, compile);
      CompiledFromMore(prev.events, init, names, srcDir, objDir, depDir);
      if prev.result.Done? {
        var name := names[|names| - 1];
        var paths := OutputNames(name, srcDir, objDir, depDir);
        var step := ObjectRun(prev.files, t, paths.0, paths.1, paths.2, compile);
        var run := ObjectsRun(fs, t, names, srcDir, objDir, depDir, compile);
        assert run.events == prev.events + step.events;
        assert step.result.Done? ==> run.result == Done(prev.result.value && Succeeded(step.result.value));
        assert step.result.Raised? ==> run.result.Raised?;
        ObjectRunSummary(prev.files, t, paths.0, paths.1, paths.2, compile);
        CompiledFromOne(step.events, name, names, srcDir, objDir, depDir);
        LoopStepSummary(prev.events, prev.result.value, step.events, step.result, names, srcDir, objDir, depDir);
      }
    }
  }

  /** The loop's summary carries over one more `build_object` call. */
  lemma LoopStepSummary(before: seq<Event>, ok: bool, events: seq<Event>, result: Outcome<Option<int>>,
                        names: seq<string>, srcDir: string, objDir: string, depDir: string)
    requires OnlyObjectEvents(before) && CompiledFrom(before, names, srcDir, objDir, depDir)
    requires ok <==> AllCompiledOk(before)
    requires OnlyObjectEvents(events) && CompiledFrom(events, names, srcDir, objDir, depDir)
    requires result.Done? ==> (Succeeded(result.value) <==> AllCompiledOk(events))
    ensures OnlyObjectEvents(before + events) && CompiledFrom(before + events, names, srcDir, objDir, depDir)
    ensures result.Done? ==> (ok && Succeeded(result.value) <==> AllCompiledOk(before + events))
  {
    EventsAppend(before, events, names, srcDir, objDir, depDir);
  }

  lemma CompiledFromMore(events: seq<Event>, names: seq<string>, more: seq<string>, srcDir: string, objDir: string,
                         depDir: string)
    requires CompiledFrom(events, names, srcDir, objDir, depDir)
    requires forall n <- names :: n in more
    ensures CompiledFrom(events, more, srcDir, objDir, depDir)
  {
  }

  /**
   * `build` links exactly when every object built and the binary's
   * directory could be made, and the link is then the last event; a failed
   * compilation ends the log with the failure message and no link. Every
   * compiler run is for a C/C++ file listed under `src`.
   */
  lemma BuildLinksOnlyOnSuccess(fs: FileMap, t: int, execName: string, srcDir: string, objDir: string, depDir: string,
                                binDir: string, list: (FileMap, string) -> seq<string>,
                                compile: (string, string, string) -> int)
    ensures var run := BuildRun(fs, t, execName, srcDir, objDir, depDir, binDir, list, compile);
      LinkedOnlyOnSuccess(run, PathJoin(binDir, execName)) &&
      (IsDir(fs, "src") ==> CompiledFrom(run.events, SourceNames(list(fs, "src")), srcDir, objDir, depDir)) &&
      (!IsDir(fs, "src") ==> run == Run(Raised(ListFiles(fs, "src", list).error), fs, []))
  {
    if IsDir(fs, "src") {
      var names := SourceNames(list(fs, "src"));
      var objs := ObjectsRun(fs, t, names, srcDir, objDir, depDir, compile);
      ObjectsRunSummary(fs, t, names, srcDir, objDir, depDir, compile);
      LinkIfBuiltSummary(objs, t, PathJoin(binDir, execName), objDir, list, names, srcDir, depDir);
    }
  }

  /**
   * The outcome of `build` and the end of its log agree: a link, as the
   * last event, only after every compiler run exited with 0; the failure
   * message, as the last event, only after one did not.
   */
  predicate LinkedOnlyOnSuccess(run: Run<bool>, bin: string)
  {
    var last := if run.events == [] then CompilationFailed else run.events[|run.events| - 1];
    (run.result == Done(true) ==>
      AllCompiledOk(run.events) && last.Linked? && last.bin == bin &&
      OnlyObjectEvents(run.events[..|run.events| - 1])) &&
    (run.result == Done(false) ==>
      !AllCompiledOk(run.events) && run.events != [] && last == CompilationFailed &&
      OnlyObjectEvents(run.events[..|run.events| - 1])) &&
    (run.result.Raised? ==> OnlyObjectEvents(run.events))
  }

  lemma LinkIfBuiltSummary(objs: Run<bool>, t: int, bin: string, objDir: string,
                           list: (FileMap, string) -> seq<string>, names: seq<string>, srcDir: string, depDir: string)
    requires OnlyObjectEvents(objs.events) && CompiledFrom(objs.events, names, srcDir, objDir, depDir)
    requires objs.result.Done? ==> (objs.result.value <==> AllCompiledOk(objs.events))
    ensures var run := LinkIfBuilt(objs, t, bin, objDir, list);
      LinkedOnlyOnSuccess(run, bin) && CompiledFrom(run.events, names, srcDir, objDir, depDir)
  {
    if objs.result == Done(false) {
      EventsAppend(objs.events, [CompilationFailed], names, srcDir, objDir, depDir);
      var run := LinkIfBuilt(objs, t, bin, objDir, list);
      assert run.events[..|run.events| - 1] == objs.events;
    } else if objs.result == Done(true) {
      LinkSummary(objs, t, bin, objDir, list, names, srcDir, depDir);
    }
  }

  lemma LinkSummary(objs: Run<bool>, t: int, bin: string, objDir: string,
                    list: (FileMap, string) -> seq<string>, names: seq<string>, srcDir: string, depDir: string)
    requires OnlyObjectEvents(objs.events) && CompiledFrom(objs.events, names, srcDir, objDir, depDir)
    requires objs.result == Done(true) && AllCompiledOk(objs.events)
    ensures var run := LinkIfBuilt(objs, t, bin, objDir, list);
      LinkedOnlyOnSuccess(run, bin) && CompiledFrom(run.events, names, srcDir, objDir, depDir)
    ensures var run := LinkIfBuilt(objs, t, bin, objDir, list);
      !IsDir(objs.files, objDir) ==> run.result == Raised(ListFiles(objs.files, objDir, list).error) && run.events == objs.events
  {
    var run := LinkIfBuilt(objs, t, bin, objDir, list);
    if !IsDir(objs.files, objDir) {
      assert run == Run(Raised(ListFiles(objs.files, objDir, list).error), objs.files, objs.events + []);
      assert objs.events + [] == objs.events;
    } else {
      var m := CreateRun(objs.files, DirName(bin), t);
      CreatedOnly(m.events, names, srcDir, objDir, depDir);
      EventsAppend(objs.events, m.events, names, srcDir, objDir, depDir);
      if m.err.None? {
        var link := Linked(list(objs.files, objDir), bin);
        EventsAssoc(objs.events, m.events, [link]);
        assert run == Run(Done(true), m.files, objs.events + m.events + [link]);
        LinkedRunSummary(objs.events + m.events, m.files, list(objs.files, objDir), bin, names, srcDir, objDir, depDir);
      } else {
        assert run == Run(Raised(m.err.value), m.files, objs.events + m.events);
      }
    }
  }

  /** A run that ends with the link after object events only, all successful, is summarised as such. */
  lemma LinkedRunSummary(before: seq<Event>, fs: FileMap, objects: seq<string>, bin: string,
                         names: seq<string>, srcDir: string, objDir: string, depDir: string)
    requires OnlyObjectEvents(before) && AllCompiledOk(before) && CompiledFrom(before, names, srcDir, objDir, depDir)
    ensures var run := Run(Done(true), fs, before + [Linked(objects, bin)]);
      LinkedOnlyOnSuccess(run, bin) && CompiledFrom(run.events, names, srcDir, objDir, depDir)
  {
    EventsAppend(before, [Linked(objects, bin)], names, srcDir, objDir, depDir);
    DropLast(before, Linked(objects, bin));
  }

  /** Directory creations are object events, are no failed compiler runs, and compile nothing. */
  lemma CreatedOnly(made: seq<Event>, names: seq<string>, srcDir: string, objDir: string, depDir: string)
    requires AllCreated(made)
    ensures OnlyObjectEvents(made) && AllCompiledOk(made) && CompiledFrom(made, names, srcDir, objDir, depDir)
  {
  }

  /** Dropping the last event of `events + [e]` gives `events`. */
  lemma DropLast(events: seq<Event>, e: Event)
    ensures (events + [e])[..|events + [e]| - 1] == events
  {
  }

  /** Once a call of `build_object` raises, the loop of `build` is over. */
  lemma {:induction false} RaisedPersists(fs: FileMap, t: int, names: seq<string>, n: nat, srcDir: string,
                                          objDir: string, depDir: string, compile: (string, string, string) -> int)
    requires n <= |names|
    requires ObjectsRun(fs, t, names[..n], srcDir, objDir, depDir, compile).result.Raised?
    ensures ObjectsRun(fs, t, names, srcDir, objDir, depDir, compile) ==
      ObjectsRun(fs, t, names[..n], srcDir, objDir, depDir, compile)
    decreases |names|
  {
    if n == |names| {
      assert names[..n] == names;
    } else {
      var init := names[..|names| - 1];
      assert init[..n] == names[..n];
      RaisedPersists(fs, t, init, n, srcDir, objDir, depDir, compile);
    }
  }

  /** One more turn of the loop of `build`, stated on a prefix of the names. */
  lemma ObjectsRunStep(fs: FileMap, t: int, names: seq<string>, i: nat, srcDir: string, objDir: string,
                       depDir: string, compile: (string, string, string) -> int)
    requires i < |names|
    ensures var prev := ObjectsRun(fs, t, names[..i], srcDir, objDir, depDir, compile);
      var paths := OutputNames(names[i], srcDir, objDir, depDir);
      var step := ObjectRun(prev.files, t, paths.0, paths.1, paths.2, compile);
      prev.result.Done? ==>
        ObjectsRun(fs, t, names[..i + 1], srcDir, objDir, depDir, compile) ==
          match step.result
          case Raised(e) => Run(Raised(e), step.files, prev.events + step.events)
          case Done(ret) => Run(Done(prev.result.value && Succeeded(ret)), step.files, prev.events + step.events)
  {
    assert names[..i + 1][..i] == names[..i];
    assert names[..i + 1][i] == names[i];
  }

  lemma EventsAssoc(a: seq<Event>, b: seq<Event>, c: seq<Event>)
    ensures a + b + c == a + (b + c)
  {
  }

  // ---------------------------------------------------------------------
  // The filesystem the script acts on

  class FileSystem {
    var files: FileMap
    /** What the script printed and ran, in order. */
    var log: seq<Event>
    /** The time stamp given to directories this run creates. */
    const now: int

    constructor (initial: FileMap, now: int)
      ensures files == initial && log == [] && this.now == now
    {
      files := initial;
      log := [];
      this.now := now;
    }

    /**
     * `create_directory(path)`: nothing for "" or an existing directory;
     * otherwise the parent first, then the path itself, with one log line
     * each. `os.mkdir` raises where a file takes the place of a directory.
     */
    method CreateDirectory(path: string) returns (err: Option<PyError>)
      modifies this
      ensures var m := CreateRun(old(files), path, now);
        err == m.err && files == m.files && log == old(log) + m.events
      decreases |path|
    {
      if path == "" || IsDir(files, path) {
        return None;
      }
      err := CreateDirectory(DirName(path));
      if err.Some? {
        return;
      }
      log := log + [Created(path)];
      if path in files {
        return Some(FileExists(path));
      }
      files := files[path := Dir(now)];
    }

    /**
     * `build_object(filename, srcDir, objDir, depDir)`: makes the
     * directories of the manifest and the object, then runs the compiler
     * only if `needs_build` says so and returns its exit code, or `None`
     * when nothing had to be built.
     */
    method BuildObject(filename: string, srcDir: string, objDir: string, depDir: string,
                       compile: (string, string, string) -> int)
      returns (r: Outcome<Option<int>>)
      modifies this
      ensures var paths := OutputNames(filename, srcDir, objDir, depDir);
        var run := ObjectRun(old(files), now, paths.0, paths.1, paths.2, compile);
        r == run.result && files == run.files && log == old(log) + run.events
    {
      var paths := OutputNames(filename, srcDir, objDir, depDir);
      r := BuildPaths(paths.0, paths.1, paths.2, compile);
    }

    /** The body of `build_object` once the three paths are known. */
    method BuildPaths(dep: string, obj: string, src: string, compile: (string, string, string) -> int)
      returns (r: Outcome<Option<int>>)
      modifies this
      ensures var run := ObjectRun(old(files), now, dep, obj, src, compile);
        r == run.result && files == run.files && log == old(log) + run.events
    {
      ghost var fs0, log0 := files, log;
      ghost var m1 := CreateRun(fs0, DirName(dep), now);
      var err := CreateDirectory(DirName(dep));
      if err.Some? {
        return Raised(err.value);
      }
      ghost var m2 := CreateRun(m1.files, DirName(obj), now);
      err := CreateDirectory(DirName(obj));
      EventsAssoc(log0, m1.events, m2.events);
      if err.Some? {
        return Raised(err.value);
      }
      ghost var c := CompileIfNeeded(m2.files, dep, obj, src, compile);
      r := CompileIfStale(dep, obj, src, compile);
      EventsAssoc(log0, m1.events + m2.events, c.events);
    }

    /** The end of `build_object`: the compiler, only if `needs_build` says so. */
    method CompileIfStale(dep: string, obj: string, src: string, compile: (string, string, string) -> int)
      returns (r: Outcome<Option<int>>)
      modifies this
      ensures var run := CompileIfNeeded(old(files), dep, obj, src, compile);
        r == run.result && files == run.files && log == old(log) + run.events
    {
      var needed := NeedsBuild(files, src, obj, dep);
      if needed.Raised? {
        return Raised(needed.error);
      }
      if needed.value {
        var code := compile(dep, obj, src);
        log := log + [Compiled(dep, obj, src, code)];
        return Done(Some(code));
      }
      return Done(None);
    }

    /**
     * `build(execName, srcDir, objDir, depDir, binDir)`: every C/C++ file
     * listed under `src` goes through `build_object`; the link runs only if
     * all of them succeeded. The result says whether the link ran.
     */
    method Build(execName: string, srcDir: string, objDir: string, depDir: string, binDir: string,
                 list: (FileMap, string) -> seq<string>, compile: (string, string, string) -> int)
      returns (r: Outcome<bool>)
      modifies this
      ensures var run := BuildRun(old(files), now, execName, srcDir, objDir, depDir, binDir, list, compile);
        r == run.result && files == run.files && log == old(log) + run.events
    {
      var listing := ListFiles(files, "src", list);
      if listing.Raised? {
        return Raised(listing.error);
      }
      var names := SourceNames(listing.value);
      ghost var fs0, log0 := files, log;
      ghost var objs := ObjectsRun(fs0, now, names, srcDir, objDir, depDir, compile);
      var built := BuildObjects(names, srcDir, objDir, depDir, compile);
      ghost var link := LinkTail(built, files, now, PathJoin(binDir, execName), objDir, list);
      r := LinkObjects(built, PathJoin(binDir, execName), objDir, list);
      EventsAssoc(log0, objs.events, link.events);
    }

    /** The loop of `build`: `build_object` on each name in turn, stopping at the first exception. */
    method BuildObjects(names: seq<string>, srcDir: string, objDir: string, depDir: string,
                        compile: (string, string, string) -> int)
      returns (r: Outcome<bool>)
      modifies this
      ensures var run := ObjectsRun(old(files), now, names, srcDir, objDir, depDir, compile);
        r == run.result && files == run.files && log == old(log) + run.events
    {
      ghost var fs0, log0 := files, log;
      ghost var made: seq<Event> := [];
      var success := true;
      var i := 0;
      while i < |names|
        invariant 0 <= i <= |names|
        invariant log == log0 + made
        invariant ObjectsRun(fs0, now, names[..i], srcDir, objDir, depDir, compile) == Run(Done(success), files, made)
      {
        ghost var paths := OutputNames(names[i], srcDir, objDir, depDir);
        ghost var step := ObjectRun(files, now, paths.0, paths.1, paths.2, compile);
        var ret := BuildObject(names[i], srcDir, objDir, depDir, compile);
        ObjectsRunStep(fs0, now, names, i, srcDir, objDir, depDir, compile);
        EventsAssoc(log0, made, step.events);
        made := made + step.events;
        if ret.Raised? {
          RaisedPersists(fs0, now, names, i + 1, srcDir, objDir, depDir, compile);
          return Raised(ret.error);
        }
        success := success && Succeeded(ret.value);
        i := i + 1;
      }
      assert names[..i] == names;
      return Done(success);
    }

    /** The end of `build`: the failure message, or the binary's directory and the link command. */
    method LinkObjects(built: Outcome<bool>, bin: string, objDir: string, list: (FileMap, string) -> seq<string>)
      returns (r: Outcome<bool>)
      modifies this
      ensures var run := LinkTail(built, old(files), now, bin, objDir, list);
        r == run.result && files == run.files && log == old(log) + run.events
    {
      if built.Raised? {
        return built;
      }
      if !built.value {
        log := log + [CompilationFailed];
        return Done(false);
      }
      var listed := ListFiles(files, objDir, list);
      if listed.Raised? {
        return Raised(listed.error);
      }
      var objects := listed.value;
      ghost var log0 := log;
      ghost var m := CreateRun(files, DirName(bin), now);
      var err := CreateDirectory(DirName(bin));
      if err.Some? {
        return Raised(err.value);
      }
      log := log + [Linked(objects, bin)];
      EventsAssoc(log0, m.events, [Linked(objects, bin)]);
      return Done(true);
    }
  }

  /** A later clash in the extended chain does not move the first clash of its prefix. */
  lemma {:induction false} ClashInPrefix(fs: FileMap, prefix: seq<string>, more: seq<string>)
    requires FirstClash(fs, prefix) < |prefix|
    ensures FirstClash(fs, prefix + more) == FirstClash(fs, prefix)
  {
    if prefix[0] !in fs {
      assert (prefix + more)[1..] == prefix[1..] + more;
      ClashInPrefix(fs, prefix[1..], more);
    }
  }

  /** With no clash in the prefix, the first clash of `prefix + [p]` is decided by `p`. */
  lemma {:induction false} ClashAfterPrefix(fs: FileMap, prefix: seq<string>, p: string)
    requires FirstClash(fs, prefix) == |prefix|
    ensures FirstClash(fs, prefix + [p]) == if p in fs then |prefix| else |prefix| + 1
  {
    if |prefix| == 0 {
      assert prefix + [p] == [p];
    } else {
      assert (prefix + [p])[1..] == prefix[1..] + [p];
      ClashAfterPrefix(fs, prefix[1..], p);
    }
  }
}
