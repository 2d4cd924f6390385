/**
 * The link extractor: it scans a message's text for Telegram-style links (`t.me/…`,
 * `telegram.me/…`, `telesco.pe/…`, `tg://join…` and the like) and cuts out the channel or
 * invite token after each. Text is a sequence of bytes here; every char stands for one byte.
 */
module TelegramExtract {
  import opened Wrappers
  import opened Strings

  /** `idc`: a byte that may occur in a channel name or invite hash, [0-9A-Za-z_-]. */
  predicate Idc(c: char) {
    ('0' <= c <= '9') || ('A' <= c <= 'Z') || ('a' <= c <= 'z') || c == '-' || c == '_'
  }

  /**
   * Where the part after the link prefix starts, for the 't' at idx: "elegram", "elesco" or
   * "g" may follow the 't', then one of the four domains must; "g://join" ends the prefix
   * directly. A leading "joinchat" is skipped. None when the occurrence is not a link.
   */
  function AfterPrefix(text: string, idx: nat): (r: Option<nat>)
    requires idx < |text|
    ensures r.Some? ==> idx + 1 <= r.value <= |text|
  {
    var p := idx + 1;
    if OccursAt(text, "elegram", p) then AfterDomain(text, p + 7)
    else if OccursAt(text, "elesco", p) then AfterDomain(text, p + 6)
    else if OccursAt(text, "g://join", p) then Some(p + 8)
    else if OccursAt(text, "g", p) then AfterDomain(text, p + 1)
    else AfterDomain(text, p)
  }

  /** After the site name at q: one of ".me/", ".dev/", ".dog/", ".pe/", then an optional "joinchat". */
  function AfterDomain(text: string, q: nat): (r: Option<nat>)
    requires q <= |text|
    ensures r.Some? ==> q + 4 <= r.value <= |text|
  {
    var d :=
      if OccursAt(text, ".me/", q) then Some(q + 4)
      else if OccursAt(text, ".dev/", q) then Some(q + 5)
      else if OccursAt(text, ".dog/", q) then Some(q + 5)
      else if OccursAt(text, ".pe/", q) then Some(q + 4)
      else None;
    if d.None? then None
    else if OccursAt(text, "joinchat", d.value) then Some(d.value + 8)
    else d
  }

  /** `text[i..hi].iter().position(idc)`, as an index into text. */
  function FirstIdcIn(text: string, i: nat, hi: nat): (r: Option<nat>)
    requires hi <= |text|
    ensures r.Some? ==> i <= r.value < hi && Idc(text[r.value])
                        && forall k | i <= k < r.value :: !Idc(text[k])
    ensures r.None? ==> forall k | i <= k < hi :: !Idc(text[k])
    decreases hi - i
  {
    if i >= hi then None
    else if Idc(text[i]) then Some(i)
    else FirstIdcIn(text, i + 1, hi)
  }

  /** The end of the run of identifier bytes starting at i. */
  function RunEnd(text: string, i: nat): (r: nat)
    requires i <= |text|
    ensures i <= r <= |text|
    ensures forall k | i <= k < r :: Idc(text[k])
    ensures r == |text| || !Idc(text[r])
    decreases |text| - i
  {
    if i < |text| && Idc(text[i]) then RunEnd(text, i + 1) else i
  }

  /**
   * The token cut for the byte at idx, as a [start, end) range of text: only at a 't' that
   * begins a link, starting at the first identifier byte among the next 8 bytes after the
   * prefix, and running to the first byte that is not an identifier byte.
   */
  function Cut(text: string, idx: nat): (r: Option<(nat, nat)>)
    requires idx < |text|
    ensures r.Some? ==> text[idx] == 't' && AfterPrefix(text, idx).Some?
    ensures r.Some? ==>
              var (s, e) := r.value;
              && idx < s < e <= |text|
              && s < AfterPrefix(text, idx).value + 8
              && (forall k | AfterPrefix(text, idx).value <= k < s :: !Idc(text[k]))
              && (forall k | s <= k < e :: Idc(text[k]))
              && (e == |text| || !Idc(text[e]))
  {
    if text[idx] != 't' then None
    else
      var p := AfterPrefix(text, idx);
      if p.None? then None
      else
        var window := if |text| - p.value < 8 then |text| - p.value else 8;
        var s := FirstIdcIn(text, p.value, p.value + window);
        if s.None? then None else Some((s.value, RunEnd(text, s.value)))
  }

  /** One entry of `es`. */
  datatype Record = Record(channelId: int, messageId: int, token: string)

  /** The record the scan appends for the byte at n: one when a link starts there, none otherwise. */
  function RecordAt(channelId: int, messageId: int, text: string, n: nat): (r: seq<Record>)
    requires n < |text|
    ensures |r| <= 1
    ensures r != [] <==> Cut(text, n).Some?
  {
    var c := Cut(text, n);
    if c.Some? then [Record(channelId, messageId, text[c.value.0..c.value.1])] else []
  }

  /** The records the scan appends for the bytes of text before n, in text order. */
  function Records(channelId: int, messageId: int, text: string, n: nat): seq<Record>
    requires n <= |text|
  {
    if n == 0 then [] else Records(channelId, messageId, text, n - 1) + RecordAt(channelId, messageId, text, n - 1)
  }

  function Tokens(rs: seq<Record>): (r: set<string>)
    ensures forall i | 0 <= i < |rs| :: rs[i].token in r
    ensures forall t | t in r :: exists i | 0 <= i < |rs| :: rs[i].token == t
  {
    set i | 0 <= i < |rs| :: rs[i].token
  }

  lemma TokensSnoc(rs: seq<Record>, extra: seq<Record>)
    ensures Tokens(rs + extra) == Tokens(rs) + Tokens(extra)
  {
    forall t | t in Tokens(rs + extra) ensures t in Tokens(rs) + Tokens(extra) {
      var i :| 0 <= i < |rs + extra| && (rs + extra)[i].token == t;
      if i >= |rs| {
        assert extra[i - |rs|].token == t;
      }
    }
    forall t | t in Tokens(rs) ensures t in Tokens(rs + extra) {
      var i :| 0 <= i < |rs| && rs[i].token == t;
      assert (rs + extra)[i].token == t;
    }
    forall t | t in Tokens(extra) ensures t in Tokens(rs + extra) {
      var i :| 0 <= i < |extra| && extra[i].token == t;
      assert (rs + extra)[|rs| + i].token == t;
    }
  }

  /** The scan of one more byte appends that byte's record, and its token to the token set. */
  lemma RecordsStep(channelId: int, messageId: int, text: string, n: nat)
    requires n < |text|
    ensures var rec := RecordAt(channelId, messageId, text, n);
            && Records(channelId, messageId, text, n + 1) == Records(channelId, messageId, text, n) + rec
            && Tokens(Records(channelId, messageId, text, n + 1)) == Tokens(Records(channelId, messageId, text, n)) + Tokens(rec)
  {
    TokensSnoc(Records(channelId, messageId, text, n), RecordAt(channelId, messageId, text, n));
  }

  /** The tokens of at most one record. */
  lemma TokensOfOne(rs: seq<Record>)
    requires |rs| <= 1
    ensures rs == [] ==> Tokens(rs) == {}
    ensures rs != [] ==> Tokens(rs) == {rs[0].token}
  {
    if rs != [] {
      assert forall t | t in Tokens(rs) :: t == rs[0].token;
    }
  }

  /** tok occurs in text ending at some e where no identifier byte follows. */
  predicate MaximalIn(text: string, tok: string) {
    exists e | |tok| <= e <= |text| :: text[e - |tok|..e] == tok && (e == |text| || !Idc(text[e]))
  }

  predicate WellFormed(r: Record, channelId: int, messageId: int, text: string) {
    && r.channelId == channelId && r.messageId == messageId
    && r.token != []
    && (forall k | 0 <= k < |r.token| :: Idc(r.token[k]))
    && MaximalIn(text, r.token)
  }

  /**
   * Every record carries the given channel and message ids and a non-empty token made of
   * identifier bytes only, which occurs in the text and is not followed by one.
   */
  lemma {:induction false} RecordsWellFormed(channelId: int, messageId: int, text: string, n: nat)
    requires n <= |text|
    ensures forall i | 0 <= i < |Records(channelId, messageId, text, n)| ::
              WellFormed(Records(channelId, messageId, text, n)[i], channelId, messageId, text)
  {
    if n > 0 {
      RecordsWellFormed(channelId, messageId, text, n - 1);
      var c := Cut(text, n - 1);
      if c.Some? {
        var (s, e) := c.value;
        var tok := text[s..e];
        assert text[e - |tok|..e] == tok;
        assert MaximalIn(text, tok);
        assert WellFormed(Record(channelId, messageId, tok), channelId, messageId, text);
      }
    }
  }

  /** The `tg://join` form skips both the domain check and the "joinchat" strip. */
  lemma JoinFormSkipsDomain(text: string, idx: nat)
    requires idx < |text| && OccursAt(text, "g://join", idx + 1)
    ensures AfterPrefix(text, idx) == Some(idx + 9)
  {
    assert text[idx + 1] == 'g';
    assert !OccursAt(text, "elegram", idx + 1) && !OccursAt(text, "elesco", idx + 1);
  }

  /** Without one of the four domains after the site prefix, an occurrence of 't' is skipped. */
  lemma NoDomainNoLink(text: string, idx: nat, q: nat)
    requires idx < |text| && !OccursAt(text, "g://join", idx + 1)
    requires q == (if OccursAt(text, "elegram", idx + 1) then idx + 8
                   else if OccursAt(text, "elesco", idx + 1) then idx + 7
                   else if OccursAt(text, "g", idx + 1) then idx + 2
                   else idx + 1)
    requires !OccursAt(text, ".me/", q) && !OccursAt(text, ".dev/", q)
    requires !OccursAt(text, ".dog/", q) && !OccursAt(text, ".pe/", q)
    ensures Cut(text, idx) == None
  {
  }

  /** "t.me/joinchat/AbC" yields the invite hash "AbC". */
  lemma InviteExample()
    ensures Cut("t.me/joinchat/AbC", 0) == Some((14, 17))
  {
    var text := "t.me/joinchat/AbC";
    ExamplePrefix(text);
    ExampleToken(text);
  }

  lemma ExamplePrefix(text: string)
    requires text == "t.me/joinchat/AbC"
    ensures AfterPrefix(text, 0) == Some(13)
  {
    FirstCharDiffers(text, "elegram", 1);
    FirstCharDiffers(text, "elesco", 1);
    FirstCharDiffers(text, "g://join", 1);
    FirstCharDiffers(text, "g", 1);
    ExampleSlices(text);
  }

  lemma ExampleSlices(text: string)
    requires text == "t.me/joinchat/AbC"
    ensures OccursAt(text, ".me/", 1) && OccursAt(text, "joinchat", 5)
  {
    assert text[1..5] == ".me/";
    assert text[5..13] == "joinchat";
  }

  lemma FirstCharDiffers(text: string, pat: string, i: nat)
    requires i < |text| && pat != [] && text[i] != pat[0]
    ensures !OccursAt(text, pat, i)
  {
    if i + |pat| <= |text| {
      assert text[i..i + |pat|][0] == text[i];
    }
  }

  lemma ExampleToken(text: string)
    requires text == "t.me/joinchat/AbC"
    ensures FirstIdcIn(text, 13, 17) == Some(14) && RunEnd(text, 14) == 17
  {
    assert !Idc(text[13]) && Idc(text[14]);
    assert Idc(text[15]) && Idc(text[16]);
  }

  /** `Inspector`: the tokens seen so far and the records collected, in order. */
  class Inspector {
    var dict: set<string>
    var es: seq<Record>

    /** `Inspector::default` */
    constructor ()
      ensures dict == {} && es == []
    {
      dict := {};
      es := [];
    }

    /**
     * `Inspector::inspect`: one record per link in the text, in text order, and every token
     * found goes into `dict`.
     */
    method Inspect(channelId: int, messageId: int, text: string)
      modifies this
      ensures es == old(es) + Records(channelId, messageId, text, |text|)
      ensures dict == old(dict) + Tokens(Records(channelId, messageId, text, |text|))
    {
      var idx := 0;
      while idx < |text|
        invariant idx <= |text|
        invariant es == old(es) + Records(channelId, messageId, text, idx)
        invariant dict == old(dict) + Tokens(Records(channelId, messageId, text, idx))
      {
        Take(channelId, messageId, text, idx);
        RecordsStep(channelId, messageId, text, idx);
        idx := idx + 1;
      }
    }

    /** The body of that loop for the byte at idx. */
    method Take(channelId: int, messageId: int, text: string, idx: nat)
      requires idx < |text|
      modifies this
      ensures es == old(es) + RecordAt(channelId, messageId, text, idx)
      ensures dict == old(dict) + Tokens(RecordAt(channelId, messageId, text, idx))
    {
      TokensOfOne(RecordAt(channelId, messageId, text, idx));
      var c := Cut(text, idx);
      if c.Some? {
        var token := text[c.value.0..c.value.1];
        if token !in dict {
          dict := dict + {token};
        }
        es := es + [Record(channelId, messageId, token)];
      }
    }
  }
}
