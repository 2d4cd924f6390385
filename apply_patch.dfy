/**
 * The patch applier: it reads the file headers of a git-style patch, classifies the checked-out
 * tree against the abbreviated blob hashes of every hunk (CLEAN, PATCHED, BROKEN, DISCARD), finds
 * where each patch belongs (the standard library, a crates.io directory or a git checkout) and
 * decides what to do with it. The file system, SHA-1 and the `git`/`cargo` commands are inputs:
 * a tree is a map from relative path to the text `read()` returns, and `sha1Hex` is the hex
 * digest function.
 */
module ApplyPatch {
  import opened Wrappers
  import opened Strings

  /** The exceptions the script can raise on its own input. */
  datatype PyError = IndexError | ValueError | UnboundLocalError | FileNotFoundError(identifier: string)

  datatype Status = Clean | Patched | Broken | Discard

  /** One header triple: the `--- ` and `+++ ` paths and the hashes of the latest `index` line. */
  datatype Hunk = Hunk(source: string, target: string, sourceHash: string, targetHash: string)

  // ---------------------------------------------------------------- Python string helpers

  /** `str.isspace` on one character: Unicode White_Space plus the four separators U+001C..U+001F. */
  predicate PySpace(c: char) {
    IsWhitespace(c) || ('\U{1C}' <= c <= '\U{1F}')
  }

  predicate StartsWith(s: string, p: string) {
    |p| <= |s| && s[..|p|] == p
  }

  predicate EndsWith(s: string, p: string) {
    |p| <= |s| && s[|s| - |p|..] == p
  }

  /** `str.rstrip()` */
  function RStrip(s: string): (r: string)
    ensures |r| <= |s| && r == s[..|r|]
    ensures forall i | |r| <= i < |s| :: PySpace(s[i])
    ensures r != [] ==> !PySpace(r[|r| - 1])
  {
    if s != [] && PySpace(s[|s| - 1]) then RStrip(s[..|s| - 1]) else s
  }

  /** The end of the run of non-space characters starting at i. */
  function WordEnd(s: string, i: nat): (r: nat)
    requires i <= |s|
    ensures i <= r <= |s|
    ensures forall k | i <= k < r :: !PySpace(s[k])
    ensures r == |s| || PySpace(s[r])
    decreases |s| - i
  {
    if i < |s| && !PySpace(s[i]) then WordEnd(s, i + 1) else i
  }

  /** `str.split()`: the maximal runs of non-space characters, in order. */
  function Words(s: string): (r: seq<string>)
    ensures forall k | 0 <= k < |r| :: r[k] != [] && forall j | 0 <= j < |r[k]| :: !PySpace(r[k][j])
    decreases |s|
  {
    if s == [] then []
    else if PySpace(s[0]) then Words(s[1..])
    else
      var e := WordEnd(s, 0);
      [s[..e]] + Words(s[e..])
  }

  /** The characters of s that are not spaces, in order. */
  function WithoutSpaces(s: string): string {
    if s == [] then [] else (if PySpace(s[0]) then [] else [s[0]]) + WithoutSpaces(s[1..])
  }

  function Join(pieces: seq<string>): string {
    if pieces == [] then [] else pieces[0] + Join(pieces[1..])
  }

  lemma {:induction false} WithoutSpacesOfWord(s: string)
    requires forall j | 0 <= j < |s| :: !PySpace(s[j])
    ensures WithoutSpaces(s) == s
    decreases |s|
  {
    if s != [] {
      WithoutSpacesOfWord(s[1..]);
    }
  }

  lemma {:induction false} WithoutSpacesAppend(a: string, b: string)
    ensures WithoutSpaces(a + b) == WithoutSpaces(a) + WithoutSpaces(b)
    decreases |a|
  {
    if a == [] {
      assert a + b == b;
    } else {
      assert (a + b)[1..] == a[1..] + b;
      WithoutSpacesAppend(a[1..], b);
    }
  }

  /** Splitting loses exactly the spaces: joining the words gives back every other character. */
  lemma {:induction false} WordsKeepEverythingElse(s: string)
    ensures Join(Words(s)) == WithoutSpaces(s)
    decreases |s|
  {
    if s != [] {
      if PySpace(s[0]) {
        WordsKeepEverythingElse(s[1..]);
      } else {
        var e := WordEnd(s, 0);
        WordsKeepEverythingElse(s[e..]);
        assert s == s[..e] + s[e..];
        WithoutSpacesAppend(s[..e], s[e..]);
        WithoutSpacesOfWord(s[..e]);
        assert ([s[..e]] + Words(s[e..]))[1..] == Words(s[e..]);
      }
    }
  }

  /** Unpacking `w.split('..')` into two names: exactly one ".." must separate them. */
  function SplitDots(w: string): (r: Result<(string, string), PyError>)
    ensures r.Err? ==> r.error == ValueError
    ensures r.Ok? ==> w == r.value.0 + ".." + r.value.1
    ensures r.Ok? ==> !Contains(r.value.1, "..")
    ensures r.Ok? ==> forall j | 0 <= j <= |r.value.0| :: !OccursAt(w, "..", j) || j == |r.value.0|
  {
    var i := Find(w, "..");
    if i.None? then Err(ValueError)
    else if Contains(w[i.value + 2..], "..") then Err(ValueError)
    else
      assert w == w[..i.value] + ".." + w[i.value + 2..];
      Ok((w[..i.value], w[i.value + 2..]))
  }

  /** Two abbreviated hashes joined by ".." split back into the same two, dots being absent from both. */
  lemma SplitDotsRoundTrip(a: string, b: string)
    requires '.' !in a && '.' !in b
    ensures SplitDots(a + ".." + b) == Ok((a, b))
  {
    var w := a + ".." + b;
    assert OccursAt(w, "..", |a|);
    forall j | 0 <= j < |a| ensures !OccursAt(w, "..", j) {
      assert w[j] == a[j];
    }
    var rest := w[|a| + 2..];
    assert rest == b;
    forall j | 0 <= j <= |b| ensures !OccursAt(b, "..", j) {
      if j + 2 <= |b| {
        assert b[j] in b;
        assert b[j..j + 2][0] == b[j];
      }
    }
  }

  // ---------------------------------------------------------------- header parsing

  /** `line[6:].rstrip()`: the path after "--- a/" or "+++ b/". */
  function HeaderPath(line: string): (r: string)
    ensures |line| >= 6 ==> r == RStrip(line[6..])
    ensures |line| < 6 ==> r == []
  {
    RStrip(if |line| >= 6 then line[6..] else [])
  }

  /** What the header loop holds: the latest `--- ` path, the latest hashes and the hunks so far. */
  datatype HeaderState = HeaderState(sourcePath: Option<string>, hashes: Option<(string, string)>, hunks: seq<Hunk>)

  /** One line of the patch, as the header loop reads it. */
  function HeaderStep(st: HeaderState, line: string): (r: Result<HeaderState, PyError>)
    ensures r.Ok? ==> |r.value.hunks| == |st.hunks| + (if StartsWith(line, "+++ ") then 1 else 0)
    ensures r.Ok? ==> st.hunks <= r.value.hunks
  {
    if StartsWith(line, "index ") then
      var ws := Words(line);
      if |ws| < 2 then Err(IndexError)
      else
        var p := SplitDots(ws[1]);
        if p.Err? then Err(ValueError) else Ok(st.(hashes := Some(p.value)))
    else if StartsWith(line, "--- ") then Ok(st.(sourcePath := Some(HeaderPath(line))))
    else if StartsWith(line, "+++ ") then
      if st.sourcePath.None? || st.hashes.None? then Err(UnboundLocalError)
      else
        var h := Hunk(st.sourcePath.value, HeaderPath(line), st.hashes.value.0, st.hashes.value.1);
        Ok(st.(hunks := st.hunks + [h]))
    else Ok(st)
  }

  const NoHeaders := HeaderState(None, None, [])

  /** The header loop over the first n lines; the first exception ends it. */
  function ReadHeaders(lines: seq<string>, n: nat): Result<HeaderState, PyError>
    requires n <= |lines|
  {
    if n == 0 then Ok(NoHeaders)
    else
      match ReadHeaders(lines, n - 1)
      case Err(e) => Err(e)
      case Ok(st) => HeaderStep(st, lines[n - 1])
  }

  /** The number of `+++ ` lines among the first n. */
  function TargetLines(lines: seq<string>, n: nat): nat
    requires n <= |lines|
  {
    if n == 0 then 0 else TargetLines(lines, n - 1) + (if StartsWith(lines[n - 1], "+++ ") then 1 else 0)
  }

  /** Each `+++ ` line appends exactly one hunk, and nothing else does. */
  lemma {:induction false} OneHunkPerTargetLine(lines: seq<string>, n: nat)
    requires n <= |lines| && ReadHeaders(lines, n).Ok?
    ensures |ReadHeaders(lines, n).value.hunks| == TargetLines(lines, n)
  {
    if n > 0 {
      OneHunkPerTargetLine(lines, n - 1);
    }
  }

  /** A `+++ ` line with no `--- ` line or no `index` line before it is an error. */
  lemma {:induction false} TargetNeedsSourceAndIndex(lines: seq<string>, n: nat)
    requires n <= |lines| && ReadHeaders(lines, n).Ok?
    requires forall k | 0 <= k < n :: !StartsWith(lines[k], "--- ")
    ensures ReadHeaders(lines, n).value.sourcePath.None?
    ensures n < |lines| && StartsWith(lines[n], "+++ ") ==> ReadHeaders(lines, n + 1).Err?
  {
    if n > 0 {
      TargetNeedsSourceAndIndex(lines, n - 1);
      assert !StartsWith(lines[n - 1], "--- ");
    }
  }

  /** The hunks of a whole patch file: one per `+++ ` line, or the exception the headers raise. */
  function PatchHunks(lines: seq<string>): (r: Result<seq<Hunk>, PyError>)
    ensures r.Err? <==> ReadHeaders(lines, |lines|).Err?
    ensures r.Err? ==> r.error == ReadHeaders(lines, |lines|).error
    ensures r.Ok? ==> r.value == ReadHeaders(lines, |lines|).value.hunks && |r.value| == TargetLines(lines, |lines|)
  {
    match ReadHeaders(lines, |lines|)
    case Err(e) => Err(e)
    case Ok(st) =>
      OneHunkPerTargetLine(lines, |lines|);
      Ok(st.hunks)
  }

  /** `patch_inner`'s loop over the lines of the patch file. */
  method ReadHunks(lines: seq<string>) returns (r: Result<seq<Hunk>, PyError>)
    ensures r == PatchHunks(lines)
  {
    var sourcePath: Option<string> := None;
    var hashes: Option<(string, string)> := None;
    var hunks: seq<Hunk> := [];
    for i := 0 to |lines|
      invariant ReadHeaders(lines, i) == Ok(HeaderState(sourcePath, hashes, hunks))
    {
      var next := ReadHeaderLine(sourcePath, hashes, hunks, lines[i]);
      ReadOneMore(lines, i, HeaderState(sourcePath, hashes, hunks), next);
      if next.Err? {
        return Err(next.error);
      }
      sourcePath, hashes, hunks := next.value.sourcePath, next.value.hashes, next.value.hunks;
    }
    r := Ok(hunks);
  }

  /** The body of that loop for one line: the updated locals, or the exception it raises. */
  method ReadHeaderLine(sourcePath: Option<string>, hashes: Option<(string, string)>, hunks: seq<Hunk>, line: string)
    returns (r: Result<HeaderState, PyError>)
    ensures r == HeaderStep(HeaderState(sourcePath, hashes, hunks), line)
  {
    if StartsWith(line, "index ") {
      var ws := Words(line);
      if |ws| < 2 {
        return Err(IndexError);
      }
      var p := SplitDots(ws[1]);
      if p.Err? {
        return Err(ValueError);
      }
      return Ok(HeaderState(sourcePath, Some(p.value), hunks));
    } else if StartsWith(line, "--- ") {
      return Ok(HeaderState(Some(HeaderPath(line)), hashes, hunks));
    } else if StartsWith(line, "+++ ") {
      if sourcePath.None? || hashes.None? {
        return Err(UnboundLocalError);
      }
      return Ok(HeaderState(sourcePath, hashes, hunks + [Hunk(sourcePath.value, HeaderPath(line), hashes.value.0, hashes.value.1)]));
    }
    r := Ok(HeaderState(sourcePath, hashes, hunks));
  }

  /** Reading one more line: its step, and when that raises, the outcome of the whole file. */
  lemma ReadOneMore(lines: seq<string>, i: nat, st: HeaderState, next: Result<HeaderState, PyError>)
    requires i < |lines| && ReadHeaders(lines, i) == Ok(st) && next == HeaderStep(st, lines[i])
    ensures ReadHeaders(lines, i + 1) == next
    ensures next.Err? ==> PatchHunks(lines) == Err(next.error)
  {
    if next.Err? {
      ErrorsPersist(lines, i + 1);
    }
  }

  /** Once an exception is raised, the rest of the lines do not matter. */
  lemma {:induction false} ErrorsPersist(lines: seq<string>, n: nat)
    requires n <= |lines| && ReadHeaders(lines, n).Err?
    ensures ReadHeaders(lines, |lines|) == ReadHeaders(lines, n)
    decreases |lines| - n
  {
    if n < |lines| {
      ErrorsPersist(lines, n + 1);
    }
  }

  // ---------------------------------------------------------------- check_hunk

  /** The bytes git hashes for a blob: "blob <length>\0" and the content. */
  function GitBlob(content: string): (r: string)
    ensures StartsWith(r, "blob ") && EndsWith(r, content)
  {
    "blob " + Decimal(|content|) + "\0" + content
  }

  /** `check_hunk`: a missing file matches only an abbreviation of zeros; a present one when its blob hash starts with it. */
  function CheckHunk(tree: map<string, string>, sha1Hex: string -> string, path: string, abbrev: string): (r: bool)
    ensures path !in tree ==> (r <==> forall i | 0 <= i < |abbrev| :: abbrev[i] == '0')
    ensures path in tree ==> (r <==> StartsWith(sha1Hex(GitBlob(tree[path])), abbrev))
  {
    if path !in tree then CountAll(abbrev, '0'); Count(abbrev, '0') == |abbrev| else StartsWith(sha1Hex(GitBlob(tree[path])), abbrev)
  }

  lemma {:induction false} CountAll(s: string, c: char)
    ensures Count(s, c) <= |s|
    ensures Count(s, c) == |s| <==> forall i | 0 <= i < |s| :: s[i] == c
  {
    if s != [] {
      CountAll(s[1..], c);
      if Count(s, c) == |s| {
        assert s[0] == c;
      }
      if forall i | 0 <= i < |s| :: s[i] == c {
        assert forall i | 0 <= i < |s[1..]| :: s[1..][i] == c;
      }
    }
  }

  /** An empty abbreviation matches every file, present or not. */
  lemma EmptyAbbreviationMatches(tree: map<string, string>, sha1Hex: string -> string, path: string)
    ensures CheckHunk(tree, sha1Hex, path, "")
  {
  }

  predicate SourceMatches(tree: map<string, string>, sha1Hex: string -> string, h: Hunk) {
    CheckHunk(tree, sha1Hex, h.source, h.sourceHash)
  }

  predicate TargetMatches(tree: map<string, string>, sha1Hex: string -> string, h: Hunk) {
    CheckHunk(tree, sha1Hex, h.target, h.targetHash)
  }

  predicate AllSources(tree: map<string, string>, sha1Hex: string -> string, hs: seq<Hunk>) {
    forall i | 0 <= i < |hs| :: SourceMatches(tree, sha1Hex, hs[i])
  }

  predicate AllTargets(tree: map<string, string>, sha1Hex: string -> string, hs: seq<Hunk>) {
    forall i | 0 <= i < |hs| :: TargetMatches(tree, sha1Hex, hs[i])
  }

  /**
   * What the tree is, judged by all hunks at once: undecided when it matches both sides of every
   * hunk, CLEAN when it matches every source but not every target, PATCHED in the mirror case,
   * BROKEN when it matches neither side throughout.
   */
  function Verdict(tree: map<string, string>, sha1Hex: string -> string, hs: seq<Hunk>): (r: Option<Status>)
    ensures r != Some(Discard)
  {
    var s := AllSources(tree, sha1Hex, hs);
    var t := AllTargets(tree, sha1Hex, hs);
    if s && t then None
    else if s then Some(Clean)
    else if t then Some(Patched)
    else Some(Broken)
  }

  lemma VerdictSnoc(tree: map<string, string>, sha1Hex: string -> string, hs: seq<Hunk>, i: nat)
    requires i < |hs|
    ensures AllSources(tree, sha1Hex, hs[..i + 1])
            <==> AllSources(tree, sha1Hex, hs[..i]) && SourceMatches(tree, sha1Hex, hs[i])
    ensures AllTargets(tree, sha1Hex, hs[..i + 1])
            <==> AllTargets(tree, sha1Hex, hs[..i]) && TargetMatches(tree, sha1Hex, hs[i])
  {
    assert forall k | 0 <= k < i :: hs[..i + 1][k] == hs[..i][k];
    assert hs[..i + 1][i] == hs[i];
  }

  /** A hunk that fails on a side rules that side out for the whole patch. */
  lemma FailureIsFinal(tree: map<string, string>, sha1Hex: string -> string, hs: seq<Hunk>, i: nat)
    requires i < |hs|
    ensures !AllSources(tree, sha1Hex, hs[..i + 1]) ==> !AllSources(tree, sha1Hex, hs)
    ensures !AllTargets(tree, sha1Hex, hs[..i + 1]) ==> !AllTargets(tree, sha1Hex, hs)
  {
    assert forall k | 0 <= k < i + 1 :: hs[..i + 1][k] == hs[k];
  }

  /** The `for sF, tF, sH, tH in hunks` loop of `patch_inner`, with its early breaks. */
  method ScanHunks(tree: map<string, string>, sha1Hex: string -> string, hs: seq<Hunk>) returns (state: Option<Status>)
    ensures state == Verdict(tree, sha1Hex, hs)
  {
    state := None;
    var i := 0;
    while i < |hs|
      invariant i <= |hs|
      invariant state == Verdict(tree, sha1Hex, hs[..i]) && state != Some(Broken)
    {
      var h := hs[i];
      VerdictSnoc(tree, sha1Hex, hs, i);
      FailureIsFinal(tree, sha1Hex, hs, i);
      if state == None {
        var s := CheckHunk(tree, sha1Hex, h.source, h.sourceHash);
        var t := CheckHunk(tree, sha1Hex, h.target, h.targetHash);
        if s && !t {
          state := Some(Clean);
        } else if !s && t {
          state := Some(Patched);
        } else if !s && !t {
          state := Some(Broken);
          break;
        }
      } else if state == Some(Clean) {
        if !CheckHunk(tree, sha1Hex, h.source, h.sourceHash) {
          state := Some(Broken);
          break;
        }
      } else {
        if !CheckHunk(tree, sha1Hex, h.target, h.targetHash) {
          state := Some(Broken);
          break;
        }
      }
      i := i + 1;
    }
    if i == |hs| {
      assert hs[..i] == hs;
    }
  }

  /**
   * What `patch_inner` returns for a patch file's lines and a tree: the headers' exception, or
   * the verdict with BROKEN turned into DISCARD for the standard library and undecided read as
   * PATCHED.
   */
  function InnerStatus(lines: seq<string>, tree: map<string, string>, sha1Hex: string -> string, isStd: bool)
    : Result<Status, PyError>
  {
    match PatchHunks(lines)
    case Err(e) => Err(e)
    case Ok(hs) =>
      var state := Verdict(tree, sha1Hex, hs);
      Ok(if state.None? then Patched else if state == Some(Broken) && isStd then Discard else state.value)
  }

  /**
   * `patch_inner` raises iff the headers do; otherwise the patch counts as applied iff every
   * hunk's target matches, CLEAN iff every source matches and not every target, and neither
   * is BROKEN outside the standard library and DISCARD inside it.
   */
  lemma InnerStatusMeaning(lines: seq<string>, tree: map<string, string>, sha1Hex: string -> string, isStd: bool)
    ensures var r := InnerStatus(lines, tree, sha1Hex, isStd);
            && (r.Err? <==> ReadHeaders(lines, |lines|).Err?)
            && (r.Err? ==> r.error == ReadHeaders(lines, |lines|).error)
            && (r.Ok? ==>
                  var hs := ReadHeaders(lines, |lines|).value.hunks;
                  var s := AllSources(tree, sha1Hex, hs);
                  var t := AllTargets(tree, sha1Hex, hs);
                  && (r.value == Patched <==> t)
                  && (r.value == Clean <==> s && !t)
                  && (r.value == Broken <==> !isStd && !s && !t)
                  && (r.value == Discard <==> isStd && !s && !t))
  {
  }

  /**
   * `patch_inner`: parse the headers, scan the tree, and turn BROKEN into DISCARD for the
   * standard library (which is never removed); `removed` says whether the directory is deleted.
   */
  method PatchInner(lines: seq<string>, tree: map<string, string>, sha1Hex: string -> string, isStd: bool)
    returns (r: Result<Status, PyError>, removed: bool)
    ensures r.Err? <==> ReadHeaders(lines, |lines|).Err?
    ensures r.Ok? ==>
              var hs := ReadHeaders(lines, |lines|).value.hunks;
              var s := AllSources(tree, sha1Hex, hs);
              var t := AllTargets(tree, sha1Hex, hs);
              && (r.value == Patched <==> t)
              && (r.value == Clean <==> s && !t)
              && (r.value == Broken <==> !isStd && !s && !t)
              && (r.value == Discard <==> isStd && !s && !t)
    ensures removed <==> r == Ok(Broken)
    ensures r == InnerStatus(lines, tree, sha1Hex, isStd)
  {
    removed := false;
    var hunks := ReadHunks(lines);
    if hunks.Err? {
      return Err(hunks.error), false;
    }
    var state := ScanHunks(tree, sha1Hex, hunks.value);
    if state == Some(Broken) {
      if isStd {
        state := Some(Discard);
      } else {
        removed := true;
      }
    }
    r := Ok(if state.None? then Patched else state.value);
  }

  // ---------------------------------------------------------------- dispatch and main

  const Std: seq<string> := ["core", "alloc", "std"]

  /** Where a patch is applied. */
  datatype Location = StdLib(name: string) | CratesIo(name: string) | GitCheckout(checkout: string, version: string)

  /** A directory of `git/checkouts` and the names of its subdirectories. */
  datatype Checkout = Checkout(name: string, subdirs: set<string>)

  /** `identifier.rsplit('-', 1)` unpacked into two: it needs a '-'; the last one splits. */
  function RSplitDash(identifier: string): (r: Option<(string, string)>)
    ensures r.None? <==> '-' !in identifier
    ensures r.Some? ==> identifier == r.value.0 + "-" + r.value.1 && '-' !in r.value.1
    decreases |identifier|
  {
    if identifier == [] then None
    else if identifier[|identifier| - 1] == '-' then
      Some((identifier[..|identifier| - 1], []))
    else
      var init := RSplitDash(identifier[..|identifier| - 1]);
      if init.None? then None
      else
        var last := identifier[|identifier| - 1];
        assert identifier == identifier[..|identifier| - 1] + [last];
        Some((init.value.0, init.value.1 + [last]))
  }

  predicate Fits(d: Checkout, name: string, version: string) {
    StartsWith(d.name, name) && version in d.subdirs
  }

  /** The index of the first checkout that fits, None iff none does. */
  function FirstFit(checkouts: seq<Checkout>, name: string, version: string): (r: Option<nat>)
    ensures r.Some? ==>
              && r.value < |checkouts| && Fits(checkouts[r.value], name, version)
              && forall j | 0 <= j < r.value :: !Fits(checkouts[j], name, version)
    ensures r.None? <==> forall i | 0 <= i < |checkouts| :: !Fits(checkouts[i], name, version)
    decreases |checkouts|
  {
    if checkouts == [] then None
    else if Fits(checkouts[0], name, version) then Some(0)
    else
      var rest := FirstFit(checkouts[1..], name, version);
      assert forall j | 1 <= j < |checkouts| :: checkouts[j] == checkouts[1..][j - 1];
      if rest.None? then None else Some(rest.value + 1)
  }

  /** Where `patch_git` applies a patch: the version directory of the first fitting checkout. */
  function GitLocation(identifier: string, checkouts: seq<Checkout>): Result<Location, PyError>
  {
    match RSplitDash(identifier)
    case None => Err(ValueError)
    case Some((name, version)) =>
      var i := FirstFit(checkouts, name, version);
      if i.None? then Err(FileNotFoundError(identifier)) else Ok(GitCheckout(checkouts[i.value].name, version))
  }

  /**
   * An identifier without a dash is a ValueError; otherwise the location is the first checkout
   * whose name starts with the crate name and that holds the version, and FileNotFoundError iff
   * there is none.
   */
  lemma GitLocationMeaning(identifier: string, checkouts: seq<Checkout>)
    ensures var r := GitLocation(identifier, checkouts);
            && (RSplitDash(identifier).None? ==> r == Err(ValueError))
            && (RSplitDash(identifier).Some? ==>
                  var (name, version) := RSplitDash(identifier).value;
                  && (r.Ok? ==> exists i | 0 <= i < |checkouts| ::
                                  && r.value == GitCheckout(checkouts[i].name, version)
                                  && Fits(checkouts[i], name, version)
                                  && forall j | 0 <= j < i :: !Fits(checkouts[j], name, version))
                  && (r.Err? <==> forall i | 0 <= i < |checkouts| :: !Fits(checkouts[i], name, version))
                  && (r.Err? ==> r.error == FileNotFoundError(identifier)))
  {
  }

  /** `patch_git`'s search: the first checkout whose name starts with the crate name and that holds the version. */
  method PatchGit(identifier: string, checkouts: seq<Checkout>) returns (r: Result<Location, PyError>)
    ensures RSplitDash(identifier).None? ==> r == Err(ValueError)
    ensures RSplitDash(identifier).Some? ==>
              var (name, version) := RSplitDash(identifier).value;
              && (r.Ok? ==> exists i | 0 <= i < |checkouts| ::
                              && r.value == GitCheckout(checkouts[i].name, version)
                              && Fits(checkouts[i], name, version)
                              && forall j | 0 <= j < i :: !Fits(checkouts[j], name, version))
              && (r.Err? <==> forall i | 0 <= i < |checkouts| :: !Fits(checkouts[i], name, version))
              && (r.Err? ==> r.error == FileNotFoundError(identifier))
    ensures r == GitLocation(identifier, checkouts)
  {
    var parts := RSplitDash(identifier);
    if parts.None? {
      return Err(ValueError);
    }
    var (name, version) := parts.value;
    for i := 0 to |checkouts|
      invariant forall j | 0 <= j < i :: !Fits(checkouts[j], name, version)
    {
      var d := checkouts[i];
      if StartsWith(d.name, name) && version in d.subdirs {
        assert FirstFit(checkouts, name, version) == Some(i);
        return Ok(GitCheckout(d.name, version));
      }
    }
    return Err(FileNotFoundError(identifier));
  }

  /** The dispatch of `main`: the standard library first, then crates.io, then the git checkouts. */
  function Located(name: string, cratesIo: set<string>, checkouts: seq<Checkout>): (r: Result<Location, PyError>)
    ensures name in Std ==> r == Ok(StdLib(name))
    ensures name !in Std && name in cratesIo ==> r == Ok(CratesIo(name))
    ensures name !in Std && name !in cratesIo ==> r == GitLocation(name, checkouts)
    ensures r.Ok? ==> (r.value.StdLib? <==> name in Std)
  {
    if name in Std then Ok(StdLib(name))
    else if name in cratesIo then Ok(CratesIo(name))
    else GitLocation(name, checkouts)
  }

  /** That dispatch as `main` runs it, with `patch_git`'s search loop. */
  method Locate(name: string, cratesIo: set<string>, checkouts: seq<Checkout>) returns (r: Result<Location, PyError>)
    ensures name in Std ==> r == Ok(StdLib(name))
    ensures name !in Std && name in cratesIo ==> r == Ok(CratesIo(name))
    ensures name !in Std && name !in cratesIo ==> r.Err? || r.value.GitCheckout?
    ensures name !in Std && name !in cratesIo ==>
              && (RSplitDash(name).None? ==> r == Err(ValueError))
              && (RSplitDash(name).Some? ==>
                    var (crate, version) := RSplitDash(name).value;
                    && (r.Ok? ==> exists i | 0 <= i < |checkouts| ::
                                    && r.value == GitCheckout(checkouts[i].name, version)
                                    && Fits(checkouts[i], crate, version)
                                    && forall j | 0 <= j < i :: !Fits(checkouts[j], crate, version))
                    && (r.Err? <==> forall i | 0 <= i < |checkouts| :: !Fits(checkouts[i], crate, version))
                    && (r.Err? ==> r.error == FileNotFoundError(name)))
    ensures r.Ok? && r.value.StdLib? ==> name in Std
    ensures r == Located(name, cratesIo, checkouts)
  {
    if name in Std {
      r := Ok(StdLib(name));
    } else if name in cratesIo {
      r := Ok(CratesIo(name));
    } else {
      r := PatchGit(name, checkouts);
    }
  }

  /** The names of the `.patch` files among the first n directory entries, without the suffix. */
  function PatchNames(files: seq<string>, n: nat): (r: seq<string>)
    requires n <= |files|
    ensures |r| <= n
  {
    if n == 0 then []
    else
      var f := files[n - 1];
      PatchNames(files, n - 1) + (if EndsWith(f, ".patch") then [f[..|f| - 6]] else [])
  }

  /** The `.patch` files among the first `n` directory entries, in directory order. */
  function PatchFiles(files: seq<string>, n: nat): (r: seq<string>)
    requires n <= |files|
    ensures |r| == |PatchNames(files, n)|
    ensures forall k | 0 <= k < |r| :: EndsWith(r[k], ".patch") && PatchNames(files, n)[k] == r[k][..|r[k]| - 6]
  {
    if n == 0 then []
    else
      var f := files[n - 1];
      PatchFiles(files, n - 1) + (if EndsWith(f, ".patch") then [f] else [])
  }

  datatype Response = Response(name: string, location: Location, status: Status)

  /** DISCARD only ever happens to the standard library, and the standard library is never BROKEN. */
  predicate StatusFitsLocation(resp: Response) {
    && (resp.status == Discard ==> resp.location.StdLib?)
    && (resp.status == Broken ==> !resp.location.StdLib?)
  }

  /**
   * What `main` makes of one `.patch` file: the dispatch's exception, the exception the patch
   * headers raise, or the package, its location and the verdict on that location's files.
   */
  function ResponseOf(file: string, cratesIo: set<string>, checkouts: seq<Checkout>,
                      lines: string -> seq<string>, tree: Location -> map<string, string>, sha1Hex: string -> string)
    : Result<Response, PyError>
    requires EndsWith(file, ".patch")
  {
    var name := file[..|file| - 6];
    match Located(name, cratesIo, checkouts)
    case Err(e) => Err(e)
    case Ok(location) =>
      match InnerStatus(lines(file), tree(location), sha1Hex, location.StdLib?)
      case Err(e) => Err(e)
      case Ok(status) => Ok(Response(name, location, status))
  }

  /**
   * A `.patch` file fails iff its package cannot be located or its headers raise; otherwise its
   * response names the package, where it was located and the verdict there, which fits the location.
   */
  lemma ResponseOfMeaning(file: string, cratesIo: set<string>, checkouts: seq<Checkout>,
                          lines: string -> seq<string>, tree: Location -> map<string, string>, sha1Hex: string -> string)
    requires EndsWith(file, ".patch")
    ensures var r := ResponseOf(file, cratesIo, checkouts, lines, tree, sha1Hex);
            var located := Located(file[..|file| - 6], cratesIo, checkouts);
            && (r.Err? <==> located.Err? || ReadHeaders(lines(file), |lines(file)|).Err?)
            && (r.Err? ==> r.error == if located.Err? then located.error else ReadHeaders(lines(file), |lines(file)|).error)
            && (r.Ok? ==>
                  && r.value.name == file[..|file| - 6]
                  && Ok(r.value.location) == located
                  && Ok(r.value.status) == InnerStatus(lines(file), tree(r.value.location), sha1Hex, r.value.location.StdLib?)
                  && StatusFitsLocation(r.value))
  {
    var located := Located(file[..|file| - 6], cratesIo, checkouts);
    if located.Ok? {
      InnerStatusMeaning(lines(file), tree(located.value), sha1Hex, located.value.StdLib?);
    }
  }

  /** One directory entry of the patching loop: skipped unless it is a `.patch` file, else located and applied. */
  method ApplyOne(file: string, cratesIo: set<string>, checkouts: seq<Checkout>,
                  lines: string -> seq<string>, tree: Location -> map<string, string>, sha1Hex: string -> string)
    returns (r: Result<Option<Response>, PyError>)
    ensures !EndsWith(file, ".patch") ==> r == Ok(None)
    ensures EndsWith(file, ".patch") && r.Ok? ==>
              r.value.Some? && r.value.value.name == file[..|file| - 6] && StatusFitsLocation(r.value.value)
    ensures EndsWith(file, ".patch") ==>
              var located := Located(file[..|file| - 6], cratesIo, checkouts);
              && (r.Err? <==> located.Err? || ReadHeaders(lines(file), |lines(file)|).Err?)
              && (r.Ok? ==> r.value.value.location == located.value
                            && Ok(r.value.value.status) == InnerStatus(lines(file), tree(located.value), sha1Hex, located.value.StdLib?))
    ensures EndsWith(file, ".patch") ==>
              r == match ResponseOf(file, cratesIo, checkouts, lines, tree, sha1Hex)
                   case Ok(resp) => Ok(Some(resp))
                   case Err(e) => Err(e)
  {
    if !EndsWith(file, ".patch") {
      return Ok(None);
    }
    var name := file[..|file| - 6];
    var location := Locate(name, cratesIo, checkouts);
    if location.Err? {
      return Err(location.error);
    }
    var status, _ := PatchInner(lines(file), tree(location.value), sha1Hex, location.value.StdLib?);
    if status.Err? {
      return Err(status.error);
    }
    r := Ok(Some(Response(name, location.value, status.value)));
  }

  /** The first exception among `outs`, or all their values in order. */
  function Collect(outs: seq<Result<Response, PyError>>): (r: Result<seq<Response>, PyError>)
    ensures r.Ok? ==> |r.value| == |outs|
  {
    if outs == [] then Ok([])
    else Extend(Collect(outs[..|outs| - 1]), outs[|outs| - 1])
  }

  /** One more outcome after `prev`: an earlier exception stands, otherwise this one's exception or value. */
  function Extend(prev: Result<seq<Response>, PyError>, out: Result<Response, PyError>): Result<seq<Response>, PyError> {
    match prev
    case Err(e) => Err(e)
    case Ok(rs) =>
      match out
      case Err(e) => Err(e)
      case Ok(resp) => Ok(rs + [resp])
  }

  /**
   * `Collect` succeeds iff every outcome does, and then lists their values in order; otherwise
   * it fails with the first failing outcome's exception.
   */
  lemma {:induction false} CollectMeaning(outs: seq<Result<Response, PyError>>)
    ensures var r := Collect(outs);
            && (r.Ok? <==> forall k | 0 <= k < |outs| :: outs[k].Ok?)
            && (r.Ok? ==> forall k | 0 <= k < |outs| :: outs[k] == Ok(r.value[k]))
            && (r.Err? ==> exists k | 0 <= k < |outs| ::
                             && outs[k] == Err(r.error)
                             && forall j | 0 <= j < k :: outs[j].Ok?)
  {
    if outs != [] {
      var init := outs[..|outs| - 1];
      CollectMeaning(init);
      assert forall k | 0 <= k < |init| :: init[k] == outs[k];
      var before := Collect(init);
      if before.Err? {
        var k :| 0 <= k < |init| && init[k] == Err(before.error) && forall j | 0 <= j < k :: init[j].Ok?;
        assert outs[k] == Err(before.error);
      } else if outs[|init|].Ok? {
        var rs := before.value + [outs[|init|].value];
        assert forall k | 0 <= k < |init| :: rs[k] == before.value[k];
      }
    }
  }

  /** The outcome of each `.patch` file, in order. */
  function Outcomes(pf: seq<string>, cratesIo: set<string>, checkouts: seq<Checkout>,
                    lines: string -> seq<string>, tree: Location -> map<string, string>, sha1Hex: string -> string)
    : (r: seq<Result<Response, PyError>>)
    requires forall k | 0 <= k < |pf| :: EndsWith(pf[k], ".patch")
    ensures |r| == |pf|
  {
    seq(|pf|, k requires 0 <= k < |pf| => ResponseOf(pf[k], cratesIo, checkouts, lines, tree, sha1Hex))
  }

  /** What `main` makes of the first `n` directory entries: the first exception, or the responses so far. */
  function DirectoryResponses(files: seq<string>, n: nat, cratesIo: set<string>, checkouts: seq<Checkout>,
                              lines: string -> seq<string>, tree: Location -> map<string, string>, sha1Hex: string -> string)
    : Result<seq<Response>, PyError>
    requires n <= |files|
  {
    if n == 0 then Ok([])
    else
      var prev := DirectoryResponses(files, n - 1, cratesIo, checkouts, lines, tree, sha1Hex);
      if !EndsWith(files[n - 1], ".patch") then prev
      else Extend(prev, ResponseOf(files[n - 1], cratesIo, checkouts, lines, tree, sha1Hex))
  }

  /** The directory's result is the collected outcomes of its `.patch` files, in directory order. */
  lemma {:induction false} DirectoryResponsesMeaning(files: seq<string>, n: nat, cratesIo: set<string>, checkouts: seq<Checkout>,
                                                     lines: string -> seq<string>, tree: Location -> map<string, string>,
                                                     sha1Hex: string -> string)
    requires n <= |files|
    ensures DirectoryResponses(files, n, cratesIo, checkouts, lines, tree, sha1Hex)
            == Collect(Outcomes(PatchFiles(files, n), cratesIo, checkouts, lines, tree, sha1Hex))
  {
    if n > 0 {
      var prev := DirectoryResponses(files, n - 1, cratesIo, checkouts, lines, tree, sha1Hex);
      DirectoryResponsesMeaning(files, n - 1, cratesIo, checkouts, lines, tree, sha1Hex);
      DirectoryResponsesNext(files, n, cratesIo, checkouts, lines, tree, sha1Hex);
      if EndsWith(files[n - 1], ".patch") {
        var outs := Outcomes(PatchFiles(files, n - 1), cratesIo, checkouts, lines, tree, sha1Hex);
        var out := ResponseOf(files[n - 1], cratesIo, checkouts, lines, tree, sha1Hex);
        OutcomesSnoc(files, n, cratesIo, checkouts, lines, tree, sha1Hex);
        CollectSnoc(outs, out);
        CollectStep(prev, outs, out, DirectoryResponses(files, n, cratesIo, checkouts, lines, tree, sha1Hex),
                    Outcomes(PatchFiles(files, n), cratesIo, checkouts, lines, tree, sha1Hex));
      } else {
        assert PatchFiles(files, n) == PatchFiles(files, n - 1);
      }
    }
  }

  lemma DirectoryResponsesNext(files: seq<string>, n: nat, cratesIo: set<string>, checkouts: seq<Checkout>,
                               lines: string -> seq<string>, tree: Location -> map<string, string>, sha1Hex: string -> string)
    requires 0 < n <= |files|
    ensures var prev := DirectoryResponses(files, n - 1, cratesIo, checkouts, lines, tree, sha1Hex);
            DirectoryResponses(files, n, cratesIo, checkouts, lines, tree, sha1Hex)
            == if EndsWith(files[n - 1], ".patch")
               then Extend(prev, ResponseOf(files[n - 1], cratesIo, checkouts, lines, tree, sha1Hex))
               else prev
  {
  }

  lemma CollectStep(prev: Result<seq<Response>, PyError>, outs: seq<Result<Response, PyError>>, out: Result<Response, PyError>,
                    next: Result<seq<Response>, PyError>, nextOuts: seq<Result<Response, PyError>>)
    requires prev == Collect(outs) && next == Extend(prev, out) && nextOuts == outs + [out]
    ensures next == Collect(nextOuts)
  {
    CollectSnoc(outs, out);
  }

  /**
   * The patching loop's result, file by file: it succeeds iff every `.patch` file's response
   * does, and then holds them in directory order; otherwise it fails with the exception of the
   * first `.patch` file that raises.
   */
  lemma DirectoryMeaning(files: seq<string>, cratesIo: set<string>, checkouts: seq<Checkout>,
                         lines: string -> seq<string>, tree: Location -> map<string, string>, sha1Hex: string -> string)
    ensures var r := DirectoryResponses(files, |files|, cratesIo, checkouts, lines, tree, sha1Hex);
            var pf := PatchFiles(files, |files|);
            && (r.Ok? <==> forall k | 0 <= k < |pf| :: ResponseOf(pf[k], cratesIo, checkouts, lines, tree, sha1Hex).Ok?)
            && (r.Ok? ==> |r.value| == |pf|
                          && forall k | 0 <= k < |pf| :: Ok(r.value[k]) == ResponseOf(pf[k], cratesIo, checkouts, lines, tree, sha1Hex))
            && (r.Err? ==> exists k | 0 <= k < |pf| ::
                             && ResponseOf(pf[k], cratesIo, checkouts, lines, tree, sha1Hex) == Err(r.error)
                             && forall j | 0 <= j < k :: ResponseOf(pf[j], cratesIo, checkouts, lines, tree, sha1Hex).Ok?)
  {
    DirectoryResponsesMeaning(files, |files|, cratesIo, checkouts, lines, tree, sha1Hex);
    var pf := PatchFiles(files, |files|);
    var outs := Outcomes(pf, cratesIo, checkouts, lines, tree, sha1Hex);
    CollectMeaning(outs);
    assert forall k | 0 <= k < |pf| :: outs[k] == ResponseOf(pf[k], cratesIo, checkouts, lines, tree, sha1Hex);
  }

  lemma CollectSnoc(outs: seq<Result<Response, PyError>>, out: Result<Response, PyError>)
    ensures Collect(outs + [out]) == Extend(Collect(outs), out)
  {
    assert (outs + [out])[..|outs|] == outs;
  }

  lemma OutcomesSnoc(files: seq<string>, n: nat, cratesIo: set<string>, checkouts: seq<Checkout>,
                     lines: string -> seq<string>, tree: Location -> map<string, string>, sha1Hex: string -> string)
    requires 0 < n <= |files| && EndsWith(files[n - 1], ".patch")
    ensures Outcomes(PatchFiles(files, n), cratesIo, checkouts, lines, tree, sha1Hex)
            == Outcomes(PatchFiles(files, n - 1), cratesIo, checkouts, lines, tree, sha1Hex)
               + [ResponseOf(files[n - 1], cratesIo, checkouts, lines, tree, sha1Hex)]
  {
    assert PatchFiles(files, n) == PatchFiles(files, n - 1) + [files[n - 1]];
  }

  /** Once the first `m` entries fail, the whole directory fails with the same exception. */
  lemma {:induction false} DirectoryFailed(files: seq<string>, m: nat, n: nat, cratesIo: set<string>, checkouts: seq<Checkout>,
                                           lines: string -> seq<string>, tree: Location -> map<string, string>,
                                           sha1Hex: string -> string)
    requires m <= n <= |files|
    requires DirectoryResponses(files, m, cratesIo, checkouts, lines, tree, sha1Hex).Err?
    ensures DirectoryResponses(files, n, cratesIo, checkouts, lines, tree, sha1Hex)
            == DirectoryResponses(files, m, cratesIo, checkouts, lines, tree, sha1Hex)
    decreases n - m
  {
    if m < n {
      DirectoryFailed(files, m, n - 1, cratesIo, checkouts, lines, tree, sha1Hex);
    }
  }

  /**
   * The patching loop of `main`: the responses to the `.patch` files, in directory order, or the
   * first exception, which ends the run. `needFetch` (a second `cargo fetch`) is set iff some
   * response is BROKEN. `lines` gives each patch file's lines and `tree` each location's files.
   */
  method ApplyAll(files: seq<string>, cratesIo: set<string>, checkouts: seq<Checkout>,
                  lines: string -> seq<string>, tree: Location -> map<string, string>, sha1Hex: string -> string)
    returns (r: Result<(seq<Response>, bool), PyError>)
    ensures var expected := DirectoryResponses(files, |files|, cratesIo, checkouts, lines, tree, sha1Hex);
            && (r.Err? <==> expected.Err?)
            && (r.Err? ==> r.error == expected.error)
            && (r.Ok? ==> r.value.0 == expected.value)
    ensures r.Ok? ==>
              var (responses, needFetch) := r.value;
              && |responses| == |PatchNames(files, |files|)|
              && (forall k | 0 <= k < |responses| :: responses[k].name == PatchNames(files, |files|)[k])
              && (forall k | 0 <= k < |responses| :: StatusFitsLocation(responses[k]))
              && (needFetch <==> exists k | 0 <= k < |responses| :: responses[k].status == Broken)
  {
    var responses: seq<Response> := [];
    var needFetch := false;
    for i := 0 to |files|
      invariant DirectoryResponses(files, i, cratesIo, checkouts, lines, tree, sha1Hex) == Ok(responses)
      invariant needFetch <==> exists k | 0 <= k < |responses| :: responses[k].status == Broken
    {
      var next := ApplyNext(files, i, responses, needFetch, cratesIo, checkouts, lines, tree, sha1Hex);
      if next.Err? {
        DirectoryFailed(files, i + 1, |files|, cratesIo, checkouts, lines, tree, sha1Hex);
        return Err(next.error);
      }
      responses, needFetch := next.value.0, next.value.1;
    }
    DirectoryFits(files, responses, cratesIo, checkouts, lines, tree, sha1Hex);
    r := Ok((responses, needFetch));
  }

  /** One turn of the patching loop: entry `i` extends the responses so far, or makes them fail. */
  method ApplyNext(files: seq<string>, i: nat, responses: seq<Response>, needFetch: bool,
                   cratesIo: set<string>, checkouts: seq<Checkout>,
                   lines: string -> seq<string>, tree: Location -> map<string, string>, sha1Hex: string -> string)
    returns (r: Result<(seq<Response>, bool), PyError>)
    requires i < |files|
    requires DirectoryResponses(files, i, cratesIo, checkouts, lines, tree, sha1Hex) == Ok(responses)
    requires needFetch <==> exists k | 0 <= k < |responses| :: responses[k].status == Broken
    ensures r.Err? ==> DirectoryResponses(files, i + 1, cratesIo, checkouts, lines, tree, sha1Hex) == Err(r.error)
    ensures r.Ok? ==> DirectoryResponses(files, i + 1, cratesIo, checkouts, lines, tree, sha1Hex) == Ok(r.value.0)
    ensures r.Ok? ==> (r.value.1 <==> exists k | 0 <= k < |r.value.0| :: r.value.0[k].status == Broken)
  {
    var one := ApplyOne(files[i], cratesIo, checkouts, lines, tree, sha1Hex);
    if !EndsWith(files[i], ".patch") {
      return Ok((responses, needFetch));
    }
    if one.Err? {
      return Err(one.error);
    }
    var resp := one.value.value;
    var extended := responses + [resp];
    assert forall k | 0 <= k < |responses| :: extended[k] == responses[k];
    assert extended[|responses|] == resp;
    r := Ok((extended, needFetch || resp.status == Broken));
  }

  /** A directory's responses carry its package names, in order, and statuses that fit their locations. */
  lemma DirectoryFits(files: seq<string>, responses: seq<Response>, cratesIo: set<string>, checkouts: seq<Checkout>,
                      lines: string -> seq<string>, tree: Location -> map<string, string>, sha1Hex: string -> string)
    requires DirectoryResponses(files, |files|, cratesIo, checkouts, lines, tree, sha1Hex) == Ok(responses)
    ensures |responses| == |PatchNames(files, |files|)|
    ensures forall k | 0 <= k < |responses| :: responses[k].name == PatchNames(files, |files|)[k]
    ensures forall k | 0 <= k < |responses| :: StatusFitsLocation(responses[k])
  {
    var pf := PatchFiles(files, |files|);
    var outs := Outcomes(pf, cratesIo, checkouts, lines, tree, sha1Hex);
    DirectoryResponsesMeaning(files, |files|, cratesIo, checkouts, lines, tree, sha1Hex);
    CollectMeaning(outs);
    forall k | 0 <= k < |pf|
      ensures responses[k].name == pf[k][..|pf[k]| - 6] && StatusFitsLocation(responses[k])
    {
      assert outs[k] == Ok(responses[k]);
      ResponseOfMeaning(pf[k], cratesIo, checkouts, lines, tree, sha1Hex);
    }
  }

  /** What the final loop of `main` does for a response. */
  datatype Action = Tick | DiscardWarning(package: string) | GitApply(location: Location, name: string)

  function ActionFor(resp: Response): (a: Action)
    ensures a.Tick? <==> resp.status == Patched
    ensures a.DiscardWarning? <==> resp.status == Discard
    ensures a.GitApply? <==> resp.status == Clean || resp.status == Broken
    ensures a.GitApply? ==> a.location == resp.location
  {
    match resp.status
    case Patched => Tick
    case Discard => DiscardWarning(if resp.location.StdLib? then resp.location.name else resp.name)
    case _ => GitApply(resp.location, resp.name)
  }
}
