/**
 * The network listener of the blackhatworld `config` command: from each request event the
 * browser emits, it picks the `Cookie` and `User-Agent` headers and sends the pair on when both
 * are there. A JSON object is a sequence of entries in its iteration order.
 */
module BhwBrowser {
  import opened Wrappers
  import opened Strings
  import opened BhwConfig

  /** The JSON values the listener distinguishes: strings, objects, and everything else. */
  datatype Json = JString(s: string) | JObject(entries: seq<(string, Json)>) | JOther

  /** The events the listener receives; `headers` is the raw header value, possibly missing. */
  datatype Event =
    | RequestWillBeSent(headers: Option<Json>)
    | RequestWillBeSentExtraInfo(headers: Option<Json>)
    | OtherEvent

  /** An entry that names the header (in any ASCII case) and holds a string. */
  predicate Names(entry: (string, Json), name: string) {
    entry.1.JString? && EqIgnoreAsciiCase(entry.0, name)
  }

  /** The two variables of the loop after the first n entries. */
  datatype Found = Found(cookie: Option<string>, userAgent: Option<string>)

  /** The loop over the header entries: a string under "cookie" replaces the cookie, else one under "user-agent" the user agent. */
  function Scan(entries: seq<(string, Json)>, n: nat): Found
    requires n <= |entries|
  {
    if n == 0 then Found(None, None)
    else
      var f := Scan(entries, n - 1);
      var e := entries[n - 1];
      if !e.1.JString? then f
      else if EqIgnoreAsciiCase(e.0, "cookie") then f.(cookie := Some(e.1.s))
      else if EqIgnoreAsciiCase(e.0, "user-agent") then f.(userAgent := Some(e.1.s))
      else f
  }

  /** What `on_event` sends for an event, if anything. */
  function Sent(ev: Event): (r: Option<ConfigHeaders>)
    ensures r.Some? ==> !ev.OtherEvent? && ev.headers.Some? && ev.headers.value.JObject?
  {
    if ev.OtherEvent? || ev.headers.None? || !ev.headers.value.JObject? then None
    else
      var entries := ev.headers.value.entries;
      var f := Scan(entries, |entries|);
      if f.cookie.Some? && f.userAgent.Some? then Some(ConfigHeaders(f.cookie.value, f.userAgent.value)) else None
  }

  /** The value of the last entry among the first n that names the header, independently of the loop. */
  predicate LastNamed(entries: seq<(string, Json)>, name: string, n: nat, v: string)
    requires n <= |entries|
  {
    exists k | 0 <= k < n :: Names(entries[k], name) && entries[k].1.s == v
                              && forall k' | k < k' < n :: !Names(entries[k'], name)
  }

  /** No header name matches both "cookie" and "user-agent", so the `else if` drops nothing. */
  lemma CookieIsNotUserAgent(key: string)
    ensures !(EqIgnoreAsciiCase(key, "cookie") && EqIgnoreAsciiCase(key, "user-agent"))
  {
  }

  /** The last string among the first n entries that names the header, one header at a time. */
  function LastOf(entries: seq<(string, Json)>, name: string, n: nat): Option<string>
    requires n <= |entries|
  {
    if n == 0 then None
    else if Names(entries[n - 1], name) then Some(entries[n - 1].1.s)
    else LastOf(entries, name, n - 1)
  }

  /** The loop tracks the two headers independently. */
  lemma {:induction false} ScanSplits(entries: seq<(string, Json)>, n: nat)
    requires n <= |entries|
    ensures Scan(entries, n) == Found(LastOf(entries, "cookie", n), LastOf(entries, "user-agent", n))
  {
    if n > 0 {
      ScanSplits(entries, n - 1);
      CookieIsNotUserAgent(entries[n - 1].0);
    }
  }

  /** The last naming entry is None exactly when no entry names the header, and otherwise its value. */
  lemma {:induction false} LastOfSpec(entries: seq<(string, Json)>, name: string, n: nat)
    requires n <= |entries|
    ensures LastOf(entries, name, n).None? <==> forall k | 0 <= k < n :: !Names(entries[k], name)
    ensures LastOf(entries, name, n).Some? ==> LastNamed(entries, name, n, LastOf(entries, name, n).value)
  {
    if n > 0 {
      LastOfSpec(entries, name, n - 1);
      if Names(entries[n - 1], name) {
        assert LastNamed(entries, name, n, entries[n - 1].1.s);
      } else if LastOf(entries, name, n - 1).Some? {
        var v := LastOf(entries, name, n - 1).value;
        var k :| 0 <= k < n - 1 && Names(entries[k], name) && entries[k].1.s == v
                 && forall k' | k < k' < n - 1 :: !Names(entries[k'], name);
        assert LastNamed(entries, name, n, v);
      }
    }
  }

  /**
   * After n entries the cookie is the string of the last entry named "cookie" in any case, and
   * None when there is none; the same for the user agent.
   */
  lemma ScanFindsLast(entries: seq<(string, Json)>, n: nat)
    requires n <= |entries|
    ensures Scan(entries, n).cookie.None? <==> forall k | 0 <= k < n :: !Names(entries[k], "cookie")
    ensures Scan(entries, n).cookie.Some? ==> LastNamed(entries, "cookie", n, Scan(entries, n).cookie.value)
    ensures Scan(entries, n).userAgent.None? <==> forall k | 0 <= k < n :: !Names(entries[k], "user-agent")
    ensures Scan(entries, n).userAgent.Some? ==> LastNamed(entries, "user-agent", n, Scan(entries, n).userAgent.value)
  {
    ScanSplits(entries, n);
    LastOfSpec(entries, "cookie", n);
    LastOfSpec(entries, "user-agent", n);
  }

  /**
   * A pair is sent exactly for a request event whose headers are an object holding both
   * headers as strings, and it holds the last such value of each, unchanged.
   */
  lemma SentSpec(ev: Event)
    ensures Sent(ev).Some? <==>
              && !ev.OtherEvent? && ev.headers.Some? && ev.headers.value.JObject?
              && (exists k | 0 <= k < |ev.headers.value.entries| :: Names(ev.headers.value.entries[k], "cookie"))
              && (exists k | 0 <= k < |ev.headers.value.entries| :: Names(ev.headers.value.entries[k], "user-agent"))
    ensures Sent(ev).Some? ==>
              var entries := ev.headers.value.entries;
              && LastNamed(entries, "cookie", |entries|, Sent(ev).value.cookie)
              && LastNamed(entries, "user-agent", |entries|, Sent(ev).value.userAgent)
  {
    if !ev.OtherEvent? && ev.headers.Some? && ev.headers.value.JObject? {
      ScanFindsLast(ev.headers.value.entries, |ev.headers.value.entries|);
    }
  }

  /** `on_event` with its loop over the header entries. */
  method OnEvent(ev: Event) returns (sent: Option<ConfigHeaders>)
    ensures sent == Sent(ev)
  {
    var headers: Option<Json>;
    match ev {
      case RequestWillBeSent(h) => headers := h;
      case RequestWillBeSentExtraInfo(h) => headers := h;
      case OtherEvent => return None;
    }
    if headers.None? || !headers.value.JObject? {
      return None;
    }
    var entries := headers.value.entries;
    var cookie: Option<string> := None;
    var userAgent: Option<string> := None;
    for i := 0 to |entries|
      invariant Scan(entries, i) == Found(cookie, userAgent)
    {
      var (k, v) := entries[i];
      if v.JString? {
        if EqIgnoreAsciiCase(k, "cookie") {
          cookie := Some(v.s);
        } else if EqIgnoreAsciiCase(k, "user-agent") {
          userAgent := Some(v.s);
        }
      }
    }
    if cookie.Some? && userAgent.Some? {
      return Some(ConfigHeaders(cookie.value, userAgent.value));
    }
    return None;
  }
}
