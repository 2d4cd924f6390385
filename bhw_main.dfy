/**
 * The blackhatworld worker's two commands. `work` reads a config that maps proxy ports to the
 * headers of a browser session and starts one worker per usable entry. `config` opens a
 * browser and reports each distinct (cookie, user agent) pair the browser sends, once. The
 * config map's entries are a sequence in its iteration order.
 */
module BhwMain {
  import opened Wrappers
  import opened Strings
  import opened BhwConfig
  import opened BhwWorker

  /** The `--port` default of `work`: the local server's port. */
  const DefaultServerPort := 18322

  /** The server port a `work` run uses: the one given, or the default. */
  function ServerPort(given: Option<int>): (r: int)
    ensures given.Some? ==> r == given.value
    ensures given.None? ==> r == DefaultServerPort
  {
    given.GetOr(DefaultServerPort)
  }

  // ---------------------------------------------------------------- the worker filter

  /** An entry of the config is usable when its key is a u16 port and neither header is empty. */
  predicate Usable(entry: (string, ConfigHeaders)) {
    ParseInt(entry.0, U16).Some? && entry.1.cookie != "" && entry.1.userAgent != ""
  }

  /** The worker for a usable entry: its key as the client port, the shared server port, its headers. */
  function WorkerFor(entry: (string, ConfigHeaders), serverPort: int): Worker
    requires Usable(entry)
  {
    Worker(ParseInt(entry.0, U16).value, serverPort, entry.1)
  }

  /** The `filter_map` of `work`: a worker per usable entry, in iteration order. */
  function Workers(config: seq<(string, ConfigHeaders)>, serverPort: int): (r: seq<Worker>)
    ensures |r| <= |config|
  {
    if config == [] then []
    else
      var rest := Workers(config[..|config| - 1], serverPort);
      var last := config[|config| - 1];
      if Usable(last) then rest + [WorkerFor(last, serverPort)] else rest
  }

  /** Every worker has the shared server port, a u16 client port, and both headers set. */
  lemma {:induction false} WorkersAreUsable(config: seq<(string, ConfigHeaders)>, serverPort: int)
    ensures forall w <- Workers(config, serverPort) :: w.serverPort == serverPort && 0 <= w.clientPort <= U16_MAX
                                                     && w.headers.cookie != "" && w.headers.userAgent != ""
  {
    if config != [] {
      WorkersAreUsable(config[..|config| - 1], serverPort);
    }
  }

  /** Every usable entry gets its worker, and every worker comes from a usable entry. */
  lemma {:induction false} WorkersExactly(config: seq<(string, ConfigHeaders)>, serverPort: int)
    ensures forall e <- config :: Usable(e) ==> WorkerFor(e, serverPort) in Workers(config, serverPort)
    ensures forall w <- Workers(config, serverPort) :: exists e <- config :: Usable(e) && w == WorkerFor(e, serverPort)
  {
    if config != [] {
      var init := config[..|config| - 1];
      var last := config[|config| - 1];
      WorkersExactly(init, serverPort);
      assert config == init + [last];
      forall w <- Workers(config, serverPort) ensures exists e <- config :: Usable(e) && w == WorkerFor(e, serverPort) {
        if w in Workers(init, serverPort) {
          var e :| e in init && Usable(e) && w == WorkerFor(e, serverPort);
          assert e in config;
        } else {
          assert w == WorkerFor(last, serverPort);
        }
      }
    }
  }

  /** An entry with an empty cookie or user agent, or a key that is not a port, starts no worker. */
  lemma UnusableStartsNothing(a: seq<(string, ConfigHeaders)>, e: (string, ConfigHeaders), b: seq<(string, ConfigHeaders)>,
                              serverPort: int)
    requires !Usable(e)
    ensures Workers(a + [e] + b, serverPort) == Workers(a + b, serverPort)
  {
    WorkersAppend(a + [e], b, serverPort);
    WorkersAppend(a, b, serverPort);
    assert (a + [e])[..|a|] == a;
  }

  lemma {:induction false} WorkersAppend(a: seq<(string, ConfigHeaders)>, b: seq<(string, ConfigHeaders)>, serverPort: int)
    ensures Workers(a + b, serverPort) == Workers(a, serverPort) + Workers(b, serverPort)
    decreases |b|
  {
    if b == [] {
      assert a + b == a;
    } else {
      var b', e := b[..|b| - 1], b[|b| - 1];
      var x := if Usable(e) then [WorkerFor(e, serverPort)] else [];
      assert Workers(a + b, serverPort) == Workers(a + b', serverPort) + x by {
        assert (a + b)[..|a + b| - 1] == a + b';
        assert (a + b)[|a + b| - 1] == e;
      }
      assert Workers(b, serverPort) == Workers(b', serverPort) + x;
      WorkersAppend(a, b', serverPort);
      assert Workers(a, serverPort) + Workers(b', serverPort) + x == Workers(a, serverPort) + (Workers(b', serverPort) + x);
    }
  }

  // ---------------------------------------------------------------- the user agent

  /**
   * The user agent of `config`: the entry `pick` (the random choice) of the list, and an
   * error when the list is empty.
   */
  function ChooseUserAgent(agents: seq<string>, pick: nat): (r: Result<string, string>)
    ensures r.Err? <==> agents == []
    ensures r.Err? ==> r.error == "no UA available"
    ensures r.Ok? ==> r.value in agents
  {
    if agents == [] then Err("no UA available") else Ok(agents[pick % |agents|])
  }

  /** Every entry of a non-empty list can be chosen. */
  lemma EveryAgentCanBeChosen(agents: seq<string>, k: nat)
    requires k < |agents|
    ensures ChooseUserAgent(agents, k) == Ok(agents[k])
  {
  }

  // ---------------------------------------------------------------- the candidate set

  /** The pairs in order, each kept only where it is not in `seen` and has not come before. */
  function FirstSeen(seen: set<ConfigHeaders>, hs: seq<ConfigHeaders>): seq<ConfigHeaders> {
    if hs == [] then []
    else
      var init := hs[..|hs| - 1];
      var last := hs[|hs| - 1];
      FirstSeen(seen, init) + (if last in seen || last in init then [] else [last])
  }

  /** The pairs of a sequence, as a set. */
  function Met(hs: seq<ConfigHeaders>): (r: set<ConfigHeaders>)
    ensures forall h :: h in r <==> h in hs
  {
    set h <- hs
  }

  lemma MetSnoc(hs: seq<ConfigHeaders>, i: nat)
    requires i < |hs|
    ensures Met(hs[..i + 1]) == Met(hs[..i]) + {hs[i]}
  {
    assert hs[..i + 1] == hs[..i] + [hs[i]];
  }

  /** The `config` receiving loop: the set of pairs met, and the pairs reported, in order. */
  class Candidates {
    var seen: set<ConfigHeaders>
    var reported: seq<ConfigHeaders>

    /** Every pair met is reported exactly once. */
    ghost predicate Valid()
      reads this
    {
      && (forall h <- reported :: h in seen)
      && (forall h <- seen :: h in reported)
      && (forall i, j | 0 <= i < j < |reported| :: reported[i] != reported[j])
    }

    constructor ()
      ensures Valid() && seen == {} && reported == []
    {
      seen := {};
      reported := [];
    }

    /** `set.entry(headers)`: a pair not met before is reported and remembered; a repeat does nothing. */
    method Receive(h: ConfigHeaders)
      requires Valid()
      modifies this
      ensures Valid()
      ensures seen == old(seen) + {h}
      ensures reported == old(reported) + (if h in old(seen) then [] else [h])
    {
      if h !in seen {
        reported := reported + [h];
        seen := seen + {h};
      }
    }

    /** The `while let` loop over the pairs the browser sends. */
    method ReceiveAll(hs: seq<ConfigHeaders>)
      requires Valid()
      modifies this
      ensures Valid()
      ensures seen == old(seen) + Met(hs)
      ensures reported == old(reported) + FirstSeen(old(seen), hs)
    {
      for i := 0 to |hs|
        invariant Valid()
        invariant seen == old(seen) + Met(hs[..i])
        invariant reported == old(reported) + FirstSeen(old(seen), hs[..i])
      {
        assert hs[..i + 1][..i] == hs[..i];
        MetSnoc(hs, i);
        Receive(hs[i]);
      }
      assert hs[..|hs|] == hs;
    }
  }

  /** What is reported is every new pair, each once. */
  lemma {:induction false} FirstSeenExactly(seen: set<ConfigHeaders>, hs: seq<ConfigHeaders>)
    ensures forall h <- FirstSeen(seen, hs) :: h in hs && h !in seen
    ensures forall h <- hs :: h in seen || h in FirstSeen(seen, hs)
    ensures forall i, j | 0 <= i < j < |FirstSeen(seen, hs)| :: FirstSeen(seen, hs)[i] != FirstSeen(seen, hs)[j]
  {
    if hs != [] {
      var init := hs[..|hs| - 1];
      var last := hs[|hs| - 1];
      FirstSeenExactly(seen, init);
      assert hs == init + [last];
    }
  }
}
