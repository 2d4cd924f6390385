/**
 * The headers a blackhatworld worker was configured with: the `Cookie` and `User-Agent` of one
 * browser session, and the proxy settings fixed when the worker was built.
 */
module BhwConfig {
  import opened Wrappers

  /** One browser session's `Cookie` and `User-Agent`. */
  datatype ConfigHeaders = ConfigHeaders(cookie: string, userAgent: string)

  /** The build-time `PROXY_HOST`, `PROXY_USERNAME` and `PROXY_PASSWORD`, each possibly unset. */
  datatype ProxyEnv = ProxyEnv(host: Option<string>, username: Option<string>, password: Option<string>)
}

/**
 * One blackhatworld worker: it asks the local server for thread ids, fetches each thread page
 * through its proxy port, submits the pages that look like real thread pages, and waits between
 * pages. The network is a finite trace of replies, each consumed in order; `None` is a
 * transport error. `draws` are the values of the random delay generator.
 */
module BhwWorker {
  import opened Wrappers
  import opened Strings
  import opened BhwConfig

  datatype Worker = Worker(clientPort: int, serverPort: int, headers: ConfigHeaders)

  // ---------------------------------------------------------------- the proxy

  /** A proxy for all traffic, with basic authentication or without. */
  datatype Proxy = Proxy(url: string, auth: Option<(string, string)>)

  function ProxyUrl(host: string, port: int): string {
    "http://" + host + ":" + FormatInt(port)
  }

  /**
   * `build_proxy`: no proxy without a host, or when `Proxy::all` rejects the URL
   * (`urlAccepted`); basic authentication only when both the username and the password are set.
   */
  function BuildProxy(env: ProxyEnv, w: Worker, urlAccepted: string -> bool): (r: Option<Proxy>)
    ensures env.host.None? ==> r.None?
    ensures env.host.Some? ==> (r.Some? <==> urlAccepted(ProxyUrl(env.host.value, w.clientPort)))
    ensures r.Some? ==> env.host.Some? && r.value.url == ProxyUrl(env.host.value, w.clientPort)
    ensures r.Some? ==> (r.value.auth.Some? <==> env.username.Some? && env.password.Some?)
    ensures r.Some? && r.value.auth.Some? ==> r.value.auth.value == (env.username.value, env.password.value)
  {
    if env.host.None? then None
    else
      var url := ProxyUrl(env.host.value, w.clientPort);
      if !urlAccepted(url) then None
      else if env.username.Some? && env.password.Some? then Some(Proxy(url, Some((env.username.value, env.password.value))))
      else Some(Proxy(url, None))
  }

  /** The proxy URL names the worker's own port: its tail reads back as that u16. */
  lemma ProxyUrlNamesPort(host: string, port: int)
    requires 0 <= port <= U16_MAX
    ensures var u := ProxyUrl(host, port);
            && |FormatInt(port)| <= |u|
            && u[..7] == "http://"
            && ParseInt(u[|u| - |FormatInt(port)|..], U16) == Some(port)
  {
    var u := ProxyUrl(host, port);
    assert u[|u| - |FormatInt(port)|..] == FormatInt(port);
    assert u[..7] == "http://";
    ParseFormatRoundTrip(port, U16);
  }

  // ---------------------------------------------------------------- the page check

  const TitleEnd := "BlackHatWorld</title>"
  const TitleStart := "<title>"

  /** `simple_check`: the first `BlackHatWorld</title>` has a `<title>` wholly before it. */
  function SimpleCheck(text: string): (r: bool)
    ensures r ==> Find(text, TitleEnd).Some?
  {
    var i := Find(text, TitleEnd);
    i.Some? && Contains(text[..i.value], TitleStart)
  }

  predicate FirstOccurrence(text: string, pat: string, i: int) {
    OccursAt(text, pat, i) && forall j | 0 <= j < i :: !OccursAt(text, pat, j)
  }

  /** A `<title>` that ends at or before index i. */
  predicate TitleBefore(text: string, i: int) {
    exists j | 0 <= j && j + |TitleStart| <= i :: OccursAt(text, TitleStart, j)
  }

  lemma OccursInPrefix(text: string, pat: string, i: int, j: int)
    requires 0 <= j && j + |pat| <= i <= |text|
    ensures OccursAt(text[..i], pat, j) <==> OccursAt(text, pat, j)
  {
    assert text[..i][j..j + |pat|] == text[j..j + |pat|];
  }

  /** The check holds exactly when the first marker has a whole `<title>` before it. */
  lemma SimpleCheckSpec(text: string)
    ensures SimpleCheck(text) <==>
              exists i | 0 <= i <= |text| :: FirstOccurrence(text, TitleEnd, i) && TitleBefore(text, i)
  {
    var f := Find(text, TitleEnd);
    if f.Some? {
      var i := f.value;
      assert FirstOccurrence(text, TitleEnd, i);
      var pre := text[..i];
      var g := Find(pre, TitleStart);
      if g.Some? {
        OccursInPrefix(text, TitleStart, i, g.value);
        assert TitleBefore(text, i);
      }
      if TitleBefore(text, i) {
        var j :| 0 <= j && j + |TitleStart| <= i && OccursAt(text, TitleStart, j);
        OccursInPrefix(text, TitleStart, i, j);
      }
      forall i' | 0 <= i' <= |text| && FirstOccurrence(text, TitleEnd, i')
        ensures i' == i
      {
      }
    }
  }

  /** A page that is only the marker has no `<title>` before it, so it is not submitted. */
  lemma MarkerAloneFails()
    ensures !SimpleCheck(TitleEnd)
  {
    assert OccursAt(TitleEnd, TitleEnd, 0);
    assert Find(TitleEnd, TitleEnd) == Some(0);
    assert TitleEnd[..0] == "";
  }

  // ---------------------------------------------------------------- the work loop

  /** How long the worker sleeps, in milliseconds. */
  const FetchWorkRetryMs := 3000
  const SubmitRetryMs := 1250
  const RejectedDelayMs := 4000
  const SubmittedDelayMin := 2400
  const SubmittedDelayMax := 2999

  /** The replies the worker will see, each in the order it asks. */
  datatype Trace = Trace(works: seq<Option<seq<int>>>, pages: seq<Option<string>>,
                         submits: seq<Option<string>>, draws: seq<int>)

  /**
   * What happened to one thread: its page (None when the fetch failed), whether it was
   * submitted, how many submissions failed in transport first, and the sleep after it.
   */
  datatype PageLog = PageLog(id: int, page: Option<string>, submitted: bool, submitFailures: nat, delay: int)

  /** Only a page that was fetched and passes the check is submitted, and only then are submissions retried. */
  predicate SubmitRule(p: PageLog) {
    && (p.submitted <==> p.page.Some? && SimpleCheck(p.page.value))
    && (!p.submitted ==> p.submitFailures == 0)
  }

  /** The sleep after a page: 2400 to 2999 ms after a submission, 4000 ms otherwise. */
  predicate DelayRule(p: PageLog) {
    && (p.submitted ==> SubmittedDelayMin <= p.delay <= SubmittedDelayMax)
    && (!p.submitted ==> p.delay == RejectedDelayMs)
  }

  /** The thread ids of a log, in order. */
  function Ids(log: seq<PageLog>): (r: seq<int>)
    ensures |r| == |log|
    ensures forall k | 0 <= k < |log| :: r[k] == log[k].id
  {
    if log == [] then [] else Ids(log[..|log| - 1]) + [log[|log| - 1].id]
  }

  /** The work lists received, in order, skipping the failed fetches. */
  function Received(works: seq<Option<seq<int>>>): seq<seq<int>> {
    if works == [] then []
    else
      var last := works[|works| - 1];
      Received(works[..|works| - 1]) + (if last.Some? then [last.value] else [])
  }

  function Flatten(batches: seq<seq<int>>): seq<int> {
    if batches == [] then [] else Flatten(batches[..|batches| - 1]) + batches[|batches| - 1]
  }

  lemma ReceivedFailure(works: seq<Option<seq<int>>>, n: nat)
    requires n < |works| && works[n].None?
    ensures Received(works[..n + 1]) == Received(works[..n])
  {
    assert works[..n + 1][..n] == works[..n];
  }

  lemma ReceivedSuccess(works: seq<Option<seq<int>>>, n: nat)
    requires n < |works| && works[n].Some?
    ensures Flatten(Received(works[..n + 1])) == Flatten(Received(works[..n])) + works[n].value
  {
    assert works[..n + 1][..n] == works[..n];
    var r := Received(works[..n]);
    assert (r + [works[n].value])[..|r|] == r;
  }

  /**
   * A retry loop: replies are read from `from` on until one succeeds; each failure before it is
   * retried after a sleep. `r` is None when the trace ends first.
   */
  method RetryUntilOk<T>(replies: seq<Option<T>>, from: nat) returns (r: Option<T>, next: nat, failures: nat)
    requires from <= |replies|
    ensures from <= next <= |replies| && from + failures <= |replies|
    ensures forall k | from <= k < from + failures :: replies[k].None?
    ensures r.Some? ==> from + failures < |replies| && next == from + failures + 1 && replies[from + failures] == r
    ensures r.None? ==> next == |replies| && from + failures == |replies|
  {
    next := from;
    failures := 0;
    while next < |replies| && replies[next].None?
      invariant from <= next <= |replies| && next == from + failures
      invariant forall k | from <= k < next :: replies[k].None?
    {
      next := next + 1;
      failures := failures + 1;
    }
    if next == |replies| {
      return None, next, failures;
    }
    r := replies[next];
    next := next + 1;
  }

  /**
   * One thread of a work list: its page reply, then, for a page that passes the check,
   * submissions until one is answered (empty or not), then the random delay. `entry` is None
   * when the trace ends before the thread is done.
   */
  method VisitThread(id: int, reply: Option<string>, submits: seq<Option<string>>, s: nat, draws: seq<int>, d: nat)
    returns (entry: Option<PageLog>, s': nat, d': nat)
    requires s <= |submits| && d <= |draws|
    requires forall k | 0 <= k < |draws| :: SubmittedDelayMin <= draws[k] <= SubmittedDelayMax
    ensures s <= s' <= |submits| && d <= d' <= |draws|
    ensures entry.Some? ==> entry.value.id == id && Fits(entry.value, reply)
    ensures entry.None? <==>
              && reply.Some? && SimpleCheck(reply.value)
              && ((forall k | s <= k < |submits| :: submits[k].None?) || d == |draws|)
    ensures entry.None? ==> (s' == |submits| || d' == |draws|) && d' == d
    ensures entry.Some? && !entry.value.submitted ==> s' == s && d' == d
    ensures entry.Some? && entry.value.submitted ==>
              && s + entry.value.submitFailures < |submits|
              && (forall k | s <= k < s + entry.value.submitFailures :: submits[k].None?)
              && submits[s + entry.value.submitFailures].Some?
              && s' == s + entry.value.submitFailures + 1
              && d < |draws| && entry.value.delay == draws[d] && d' == d + 1
  {
    s', d' := s, d;
    if reply.Some? && SimpleCheck(reply.value) {
      var answer, next, failures := RetryUntilOk(submits, s);
      s' := next;
      if answer.None? || d == |draws| {
        return None, s', d';
      }
      entry := Some(PageLog(id, reply, true, failures, draws[d]));
      d' := d + 1;
    } else {
      entry := Some(PageLog(id, reply, false, 0, RejectedDelayMs));
    }
  }

  /** The global invariant of the log: the rules hold for every entry and entry k holds page reply k. */
  predicate LogFits(log: seq<PageLog>, t: Trace) {
    |log| <= |t.pages| && forall k | 0 <= k < |log| :: Fits(log[k], t.pages[k])
  }

  /** An entry fits its page reply: it holds that reply and keeps both rules. */
  predicate Fits(e: PageLog, page: Option<string>) {
    e.page == page && SubmitRule(e) && DelayRule(e)
  }

  /** The delay draws a log has used: one per submitted page. */
  function Submitted(log: seq<PageLog>): nat {
    if log == [] then 0
    else Submitted(log[..|log| - 1]) + (if log[|log| - 1].submitted then 1 else 0)
  }

  /** The submission replies a log has used: the failures and then the answer of every submitted page. */
  function Consumed(log: seq<PageLog>): nat {
    if log == [] then 0
    else
      var e := log[|log| - 1];
      Consumed(log[..|log| - 1]) + (if e.submitted then e.submitFailures + 1 else 0)
  }

  /**
   * A submitted entry read its replies from position `s` of the submission trace (its failures,
   * then an answer) and its delay from position `d` of the draws.
   */
  predicate SubmitsFit(e: PageLog, t: Trace, s: nat, d: nat) {
    e.submitted ==>
      && s + e.submitFailures < |t.submits|
      && (forall k | s <= k < s + e.submitFailures :: t.submits[k].None?)
      && t.submits[s + e.submitFailures].Some?
      && d < |t.draws| && e.delay == t.draws[d]
  }

  /** Every entry of the log read its submission replies and delay where the entries before it left off. */
  predicate Consumes(log: seq<PageLog>, t: Trace) {
    forall k | 0 <= k < |log| :: SubmitsFit(log[k], t, Consumed(log[..k]), Submitted(log[..k]))
  }

  /** Page `p` is fetched and passes the check, but no submission from `s` on is answered or no draw from `d` on is left. */
  predicate Stuck(t: Trace, p: nat, s: nat, d: nat)
    requires p < |t.pages|
  {
    && t.pages[p].Some? && SimpleCheck(t.pages[p].value)
    && ((forall k | s <= k < |t.submits| :: t.submits[k].None?) || d == |t.draws|)
  }

  /**
   * Where a thread list stops early: the page replies ran out with every logged thread fully
   * followed, or the next page is stuck at the point the log reached.
   */
  predicate Halted(t: Trace, log: seq<PageLog>, s: nat, d: nat) {
    || (|log| == |t.pages| && s == Consumed(log))
    || (|log| < |t.pages| && Stuck(t, |log|, Consumed(log), d))
  }

  lemma ConsumesSnoc(log: seq<PageLog>, e: PageLog, t: Trace)
    requires Consumes(log, t) && SubmitsFit(e, t, Consumed(log), Submitted(log))
    ensures Consumes(log + [e], t)
    ensures Consumed(log + [e]) == Consumed(log) + (if e.submitted then e.submitFailures + 1 else 0)
    ensures Submitted(log + [e]) == Submitted(log) + (if e.submitted then 1 else 0)
  {
    var log' := log + [e];
    assert log'[..|log|] == log;
    forall k | 0 <= k < |log'|
      ensures SubmitsFit(log'[k], t, Consumed(log'[..k]), Submitted(log'[..k]))
    {
      if k < |log| {
        assert log'[k] == log[k] && log'[..k] == log[..k];
      }
    }
  }

  /** Appending the entry of thread ids[i] keeps the log fitting the trace and its ids the list so far. */
  lemma Extend(log: seq<PageLog>, e: PageLog, t: Trace, before: seq<int>, ids: seq<int>, i: nat)
    requires LogFits(log, t) && |log| < |t.pages| && Fits(e, t.pages[|log|])
    requires i < |ids| && e.id == ids[i] && Ids(log) == before + ids[..i]
    ensures LogFits(log + [e], t) && Ids(log + [e]) == before + ids[..i + 1]
  {
    forall k | 0 <= k < |log| + 1 ensures Fits((log + [e])[k], t.pages[k]) {
      if k < |log| {
        assert (log + [e])[k] == log[k];
      }
    }
    IdsExtend(log, e, before, ids, i);
  }

  /** Appending the entry of ids[i] to a log that extends `log` by ids[..i] extends it by ids[..i + 1]. */
  lemma PrefixExtend(log: seq<PageLog>, log': seq<PageLog>, e: PageLog, ids: seq<int>, i: nat)
    requires |log| <= |log'| && log'[..|log|] == log
    requires i < |ids| && e.id == ids[i] && Ids(log') == Ids(log) + ids[..i]
    ensures (log' + [e])[..|log|] == log && Ids(log' + [e]) == Ids(log) + ids[..i + 1]
  {
    IdsExtend(log', e, Ids(log), ids, i);
    assert (log' + [e])[..|log|] == log'[..|log|];
  }

  lemma IdsExtend(log: seq<PageLog>, e: PageLog, before: seq<int>, ids: seq<int>, i: nat)
    requires i < |ids| && e.id == ids[i] && Ids(log) == before + ids[..i]
    ensures Ids(log + [e]) == before + ids[..i + 1]
  {
    IdsSnoc(log, e);
    assert ids[..i + 1] == ids[..i] + [ids[i]];
  }

  /**
   * The next thread of a work list, reading the next page reply: its entry extends the log
   * and its submission replies and draw follow on from those the log used. None when the page
   * replies ran out or the page passes the check but cannot be submitted or followed by a delay.
   */
  method VisitNext(t: Trace, id: int, log: seq<PageLog>, s: nat, d: nat) returns (entry: Option<PageLog>, s': nat, d': nat)
    requires forall k | 0 <= k < |t.draws| :: SubmittedDelayMin <= t.draws[k] <= SubmittedDelayMax
    requires LogFits(log, t) && s <= |t.submits| && d <= |t.draws|
    requires Consumes(log, t) && s == Consumed(log) && d == Submitted(log)
    ensures s <= s' <= |t.submits| && d <= d' <= |t.draws|
    ensures entry.Some? ==>
              && entry.value.id == id && LogFits(log + [entry.value], t)
              && Consumes(log + [entry.value], t)
              && s' == Consumed(log + [entry.value]) && d' == Submitted(log + [entry.value])
    ensures entry.None? ==>
              && d' == d
              && (|log| == |t.pages| || s' == |t.submits| || d' == |t.draws|)
              && Halted(t, log, s', d')
  {
    if |log| == |t.pages| {
      return None, s, d;
    }
    entry, s', d' := VisitThread(id, t.pages[|log|], t.submits, s, t.draws, d);
    if entry.Some? {
      Extend(log, entry.value, t, Ids(log), [id], 0);
      ConsumesSnoc(log, entry.value, t);
    }
  }

  /** The threads of one work list, in order; `complete` is false when the trace ends first. */
  method VisitBatch(t: Trace, ids: seq<int>, log: seq<PageLog>, s: nat, d: nat)
    returns (log': seq<PageLog>, s': nat, d': nat, complete: bool)
    requires forall k | 0 <= k < |t.draws| :: SubmittedDelayMin <= t.draws[k] <= SubmittedDelayMax
    requires LogFits(log, t) && s <= |t.submits| && d <= |t.draws|
    requires Consumes(log, t) && s == Consumed(log) && d == Submitted(log)
    ensures LogFits(log', t) && s <= s' <= |t.submits| && d <= d' <= |t.draws|
    ensures |log| <= |log'| <= |log| + |ids| && Ids(log') == Ids(log) + ids[..|log'| - |log|]
    ensures log'[..|log|] == log
    ensures Consumes(log', t) && d' == Submitted(log')
    ensures complete <==> |log'| == |log| + |ids|
    ensures complete ==> s' == Consumed(log')
    ensures !complete ==> |log'| == |t.pages| || s' == |t.submits| || d' == |t.draws|
    ensures !complete ==> Halted(t, log', s', d')
  {
    log', s', d' := log, s, d;
    for i := 0 to |ids|
      invariant LogFits(log', t) && s <= s' <= |t.submits| && d <= d' <= |t.draws|
      invariant |log'| == |log| + i
      invariant Ids(log') == Ids(log) + ids[..i]
      invariant log'[..|log|] == log
      invariant Consumes(log', t) && s' == Consumed(log') && d' == Submitted(log')
    {
      var entry;
      entry, s', d' := VisitNext(t, ids[i], log', s', d');
      if entry.None? {
        return log', s', d', false;
      }
      PrefixExtend(log, log', entry.value, ids, i);
      log' := log' + [entry.value];
    }
    assert ids[..|ids|] == ids;
    complete := true;
  }

  /** Every work reply was read: the log holds all ids received, each thread fully followed. */
  predicate WorkRanOut(t: Trace, log: seq<PageLog>, w: nat, s: nat) {
    w == |t.works| && Ids(log) == Flatten(Received(t.works)) && s == Consumed(log)
  }

  /**
   * The run stopped inside the list of work reply `w - 1`: the page replies ran out after the
   * last thread fully followed, or the next page passes the check but its submission or its
   * delay draw ran out.
   */
  predicate StoppedShort(t: Trace, log: seq<PageLog>, w: nat, s: nat, d: nat)
    requires w <= |t.works|
  {
    && 0 < w && t.works[w - 1].Some?
    && |Flatten(Received(t.works[..w - 1]))| <= |log| < |Flatten(Received(t.works[..w]))|
    && Halted(t, log, s, d)
  }

  /** None of the first `n` work replies is an empty list. */
  predicate NoEmptyList(works: seq<Option<seq<int>>>, n: nat)
    requires n <= |works|
  {
    forall k | 0 <= k < n :: works[k] != Some([])
  }

  /** An empty list at `next - 1`, after lists that were not empty and failures, is the first one. */
  lemma EmptyEnds(works: seq<Option<seq<int>>>, w: nat, next: nat)
    requires w < next <= |works| && works[next - 1] == Some([])
    requires NoEmptyList(works, w)
    requires forall k | w <= k < next - 1 :: works[k].None?
    ensures forall k | 0 <= k < next && works[k] == Some([]) :: k == next - 1
  {
  }

  /** No list before `next` is empty when the one at `next - 1` is not and those skipped failed. */
  lemma NoEmptyBefore(works: seq<Option<seq<int>>>, w: nat, next: nat)
    requires w < next <= |works| && works[next - 1] != Some([])
    requires NoEmptyList(works, w)
    requires forall k | w <= k < next - 1 :: works[k].None?
    ensures NoEmptyList(works, next)
  {
  }

  /**
   * A thread list cut short leaves the run stopped inside it: the log lies between the ids
   * received before the list and those received with it.
   */
  lemma BatchCut(t: Trace, before: seq<PageLog>, log: seq<PageLog>, ids: seq<int>, w: nat, s: nat, d: nat)
    requires 0 < w <= |t.works| && t.works[w - 1] == Some(ids)
    requires Ids(before) == Flatten(Received(t.works[..w - 1]))
    requires Flatten(Received(t.works[..w])) == Flatten(Received(t.works[..w - 1])) + ids
    requires |before| <= |log| < |before| + |ids| && Ids(log) == Ids(before) + ids[..|log| - |before|]
    requires Halted(t, log, s, d)
    ensures StoppedShort(t, log, w, s, d) && Ids(log) <= Flatten(Received(t.works[..w]))
  {
    assert ids[..|log| - |before|] <= ids;
  }

  /**
   * The threads of work reply `w - 1`, a list of `ids`, followed from where the replies before
   * it left off: all of them, or the run stops inside the list.
   */
  method FollowList(t: Trace, ids: seq<int>, w: nat, log: seq<PageLog>, s: nat, d: nat)
    returns (log': seq<PageLog>, s': nat, d': nat, complete: bool)
    requires forall k | 0 <= k < |t.draws| :: SubmittedDelayMin <= t.draws[k] <= SubmittedDelayMax
    requires 0 < w <= |t.works| && t.works[w - 1] == Some(ids)
    requires Ids(log) == Flatten(Received(t.works[..w - 1]))
    requires Flatten(Received(t.works[..w])) == Flatten(Received(t.works[..w - 1])) + ids
    requires LogFits(log, t) && s <= |t.submits| && d <= |t.draws|
    requires Consumes(log, t) && s == Consumed(log) && d == Submitted(log)
    ensures LogFits(log', t) && s' <= |t.submits| && d' <= |t.draws|
    ensures Consumes(log', t) && d' == Submitted(log')
    ensures complete ==> Ids(log') == Flatten(Received(t.works[..w])) && s' == Consumed(log')
    ensures !complete ==> |log'| == |t.pages| || s' == |t.submits| || d' == |t.draws|
    ensures !complete ==> StoppedShort(t, log', w, s', d') && Ids(log') <= Flatten(Received(t.works[..w]))
  {
    log', s', d', complete := VisitBatch(t, ids, log, s, d);
    if complete {
      assert ids[..|ids|] == ids;
    } else {
      BatchCut(t, log, log', ids, w, s', d');
    }
  }

  /**
   * `into_future` after the client is built: work lists until an empty one (then `ended`), each
   * thread in list order. Every fetched thread is logged with its page reply, and the ids logged
   * are the received lists in order. `w`, `s` and `d` count the work replies, submission replies
   * and delay draws consumed. The run ends at the first empty list received; when it does not
   * end, some part of the trace ran out.
   */
  method Run(t: Trace) returns (log: seq<PageLog>, ended: bool, w: nat, s: nat, d: nat)
    requires forall k | 0 <= k < |t.draws| :: SubmittedDelayMin <= t.draws[k] <= SubmittedDelayMax
    ensures LogFits(log, t) && w <= |t.works| && s <= |t.submits| && d <= |t.draws|
    ensures forall k | 0 <= k < w && t.works[k] == Some([]) :: ended && k == w - 1
    ensures ended ==> w > 0 && t.works[w - 1] == Some([]) && Ids(log) == Flatten(Received(t.works[..w]))
    ensures !ended ==> w == |t.works| || |log| == |t.pages| || s == |t.submits| || d == |t.draws|
    ensures Ids(log) <= Flatten(Received(t.works[..w]))
    ensures Consumes(log, t) && d == Submitted(log)
    ensures ended ==> s == Consumed(log)
    ensures !ended ==> WorkRanOut(t, log, w, s) || StoppedShort(t, log, w, s, d)
  {
    w, s, d := 0, 0, 0;
    log, ended := [], false;
    while w < |t.works|
      invariant w <= |t.works| && LogFits(log, t) && s <= |t.submits| && d <= |t.draws|
      invariant Ids(log) == Flatten(Received(t.works[..w]))
      invariant NoEmptyList(t.works, w)
      invariant Consumes(log, t) && s == Consumed(log) && d == Submitted(log)
      decreases |t.works| - w
    {
      var batch, next := NextWork(t.works, w);
      ghost var w0 := w;
      w := next;
      if batch == Some([]) {
        EmptyEnds(t.works, w0, w);
        return log, true, w, s, d;
      }
      NoEmptyBefore(t.works, w0, w);
      if batch.None? {
        break;
      }
      var ids := batch.value;
      var complete;
      log, s, d, complete := FollowList(t, ids, w, log, s, d);
      if !complete {
        return log, false, w, s, d;
      }
    }
    assert t.works[..w] == t.works;
  }

  /**
   * The work fetch of one iteration, retried until it succeeds: the list it yields (None when
   * the replies ran out) and the position after it. What was received grows by that list.
   */
  method NextWork(works: seq<Option<seq<int>>>, w: nat) returns (batch: Option<seq<int>>, next: nat)
    requires w < |works|
    ensures w < next <= |works|
    ensures forall k | w <= k < next - 1 :: works[k].None?
    ensures batch.None? ==> next == |works| && works[next - 1].None?
                            && Flatten(Received(works[..next])) == Flatten(Received(works[..w]))
    ensures batch.Some? ==> works[next - 1] == batch
                            && Flatten(Received(works[..next])) == Flatten(Received(works[..w])) + batch.value
                            && Flatten(Received(works[..next - 1])) == Flatten(Received(works[..w]))
  {
    var failures;
    batch, next, failures := RetryUntilOk(works, w);
    if batch.None? {
      forall k | w <= k < next ensures Received(works[..k + 1]) == Received(works[..k]) {
        ReceivedFailure(works, k);
      }
      ReceivedSkips(works, w, next);
    } else {
      ReceivedAfterRetry(works, w, failures, next, batch.value);
    }
  }

  /** A run of failed fetches and then a list: what was received grows by that list. */
  lemma ReceivedAfterRetry(works: seq<Option<seq<int>>>, w: nat, failures: nat, next: nat, ids: seq<int>)
    requires next == w + failures + 1 <= |works| && works[w + failures] == Some(ids)
    requires forall k | w <= k < w + failures :: works[k].None?
    ensures Flatten(Received(works[..next])) == Flatten(Received(works[..w])) + ids
    ensures Received(works[..next - 1]) == Received(works[..w])
    ensures ids == [] ==> Flatten(Received(works[..next])) == Flatten(Received(works[..w]))
  {
    forall k | w <= k < w + failures ensures Received(works[..k + 1]) == Received(works[..k]) {
      ReceivedFailure(works, k);
    }
    ReceivedSkips(works, w, w + failures);
    ReceivedSuccess(works, w + failures);
  }

  lemma IdsSnoc(log: seq<PageLog>, e: PageLog)
    ensures Ids(log + [e]) == Ids(log) + [e.id]
  {
    assert (log + [e])[..|log|] == log;
  }

  /** Failed fetches of work add nothing to what was received. */
  lemma {:induction false} ReceivedSkips(works: seq<Option<seq<int>>>, a: nat, b: nat)
    requires a <= b <= |works|
    requires forall k | a <= k < b :: Received(works[..k + 1]) == Received(works[..k])
    ensures Received(works[..b]) == Received(works[..a])
    decreases b - a
  {
    if a < b {
      ReceivedSkips(works, a, b - 1);
    }
  }
}
