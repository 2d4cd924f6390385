/**
 * The pieces of the Telegram "ping" pass that decide what to look up and how a looked-up peer
 * is recorded: splitting the raw keys into numeric ids and case-insensitive names, assembling
 * a peer's description, the one-letter kind code and the display-name fallback.
 */
module TelegramPing {
  import opened Wrappers
  import opened Strings
  import opened TelegramTypes

  // ---------------------------------------------------------------- separate_id_and_names

  predicate IsId(entry: string) {
    ParseInt(entry, I64).Some?
  }

  /** The keys of `filter_out` as `UniCase` compares them. */
  function FoldedKeys(filterOut: map<string, int>): set<string> {
    set k | k in filterOut :: AsciiFold(k)
  }

  /** An entry that goes to the name set: not an integer, and no key of `filter_out` equals it up to case. */
  predicate NameEligible(entry: string, filterOut: map<string, int>) {
    !IsId(entry) && AsciiFold(entry) !in FoldedKeys(filterOut)
  }

  /** The ids the raw entries contribute: every entry that parses as i64, minus the values of `filter_out`. */
  function IdsOf(raw: seq<string>, filterOut: map<string, int>): set<int> {
    set e | e in raw && IsId(e) && ParseInt(e, I64).value !in filterOut.Values :: ParseInt(e, I64).value
  }

  /** The names the raw entries contribute, as case-folded keys. */
  function NameKeysOf(raw: seq<string>, filterOut: map<string, int>): set<string> {
    set e | e in raw && NameEligible(e, filterOut) :: AsciiFold(e)
  }

  /** raw[i] is the first entry of its name, up to case, that goes to the name set. */
  predicate FirstOfItsName(raw: seq<string>, filterOut: map<string, int>, i: int)
    requires 0 <= i < |raw|
  {
    && NameEligible(raw[i], filterOut)
    && forall j | 0 <= j < i :: NameEligible(raw[j], filterOut) ==> AsciiFold(raw[j]) != AsciiFold(raw[i])
  }

  /**
   * What the scan of `separate_id_and_names` knows after the first n entries: the id set and
   * the name keys are those of the prefix, and `first` gives for each name the index of the
   * entry whose spelling was kept.
   */
  ghost predicate ScannedUpTo(raw: seq<string>, filterOut: map<string, int>, n: nat,
                              ids: set<int>, names: map<string, string>, first: map<string, nat>)
    requires n <= |raw|
  {
    && ids == IdsOf(raw[..n], filterOut)
    && names.Keys == NameKeysOf(raw[..n], filterOut)
    && FirstsKept(raw, filterOut, n, names, first)
  }

  /** Each name is stored under its folded key, spelt as the entry `first` points to, which comes before n. */
  ghost predicate FirstsKept(raw: seq<string>, filterOut: map<string, int>, n: nat,
                             names: map<string, string>, first: map<string, nat>)
    requires n <= |raw|
  {
    && first.Keys == names.Keys
    && (forall k | k in names :: AsciiFold(names[k]) == k)
    && (forall k | k in names :: first[k] < n && raw[first[k]] == names[k] && FirstOfItsName(raw, filterOut, first[k]))
  }

  lemma FirstsKeptGrow(raw: seq<string>, filterOut: map<string, int>, n: nat,
                       names: map<string, string>, first: map<string, nat>)
    requires n < |raw| && FirstsKept(raw, filterOut, n, names, first)
    ensures FirstsKept(raw, filterOut, n + 1, names, first)
  {
  }

  lemma FirstsKeptAdd(raw: seq<string>, filterOut: map<string, int>, n: nat,
                      names: map<string, string>, first: map<string, nat>)
    requires n < |raw| && FirstsKept(raw, filterOut, n, names, first)
    requires FirstOfItsName(raw, filterOut, n) && AsciiFold(raw[n]) !in names
    ensures FirstsKept(raw, filterOut, n + 1, names[AsciiFold(raw[n]) := raw[n]], first[AsciiFold(raw[n]) := n])
  {
  }

  /**
   * `separate_id_and_names`. The name set is returned as a map from the case-folded name to the
   * spelling kept, which is the first one inserted.
   */
  method SeparateIdAndNames(raw: seq<string>, filterOut: map<string, int>)
    returns (ids: set<int>, names: map<string, string>)
    ensures ids == IdsOf(raw, filterOut)
    ensures names.Keys == NameKeysOf(raw, filterOut)
    ensures forall k | k in names :: AsciiFold(names[k]) == k
    ensures forall k | k in names :: exists i | 0 <= i < |raw| :: raw[i] == names[k] && FirstOfItsName(raw, filterOut, i)
  {
    var filterOutIds := filterOut.Values;
    var filterOutKeys := FoldedKeys(filterOut);
    ids, names := {}, map[];
    ghost var first: map<string, nat> := map[];
    for i := 0 to |raw|
      invariant ScannedUpTo(raw, filterOut, i, ids, names, first)
    {
      ids, names, first := AddEntry(raw, filterOut, filterOutIds, filterOutKeys, i, ids, names, first);
    }
    assert raw[..|raw|] == raw;
    forall k | k in names
      ensures exists i | 0 <= i < |raw| :: raw[i] == names[k] && FirstOfItsName(raw, filterOut, i)
    {
      assert raw[first[k]] == names[k] && FirstOfItsName(raw, filterOut, first[k]);
    }
  }

  /** One turn of the scan: entry i goes to the id set, the name set, or nowhere. */
  method AddEntry(raw: seq<string>, filterOut: map<string, int>, filterOutIds: set<int>,
                  filterOutKeys: set<string>, i: nat, ids: set<int>, names: map<string, string>,
                  ghost first: map<string, nat>)
    returns (ids': set<int>, names': map<string, string>, ghost first': map<string, nat>)
    requires filterOutIds == filterOut.Values && filterOutKeys == FoldedKeys(filterOut)
    requires i < |raw| && ScannedUpTo(raw, filterOut, i, ids, names, first)
    ensures ScannedUpTo(raw, filterOut, i + 1, ids', names', first')
  {
    ids', names', first' := ids, names, first;
    var entry := raw[i];
    var id := ParseInt(entry, I64);
    if id.Some? {
      if id.value !in filterOutIds {
        ids' := ids + {id.value};
      }
      IdEntryScanned(raw, filterOut, i, ids, names, first, ids');
    } else {
      var key := AsciiFold(entry);
      if key !in filterOutKeys && key !in names {
        names' := names[key := entry];
        first' := first[key := i];
        NewNameScanned(raw, filterOut, i, ids, names, first);
      } else {
        KnownNameScanned(raw, filterOut, i, ids, names, first);
      }
    }
  }

  lemma IdEntryScanned(raw: seq<string>, filterOut: map<string, int>, i: nat, ids: set<int>,
                       names: map<string, string>, first: map<string, nat>, ids': set<int>)
    requires i < |raw| && ScannedUpTo(raw, filterOut, i, ids, names, first) && IsId(raw[i])
    requires var v := ParseInt(raw[i], I64).value;
             ids' == if v !in filterOut.Values then ids + {v} else ids
    ensures ScannedUpTo(raw, filterOut, i + 1, ids', names, first)
  {
    NameKeysNext(raw, filterOut, i);
    IdsNext(raw, filterOut, i);
    FirstsKeptGrow(raw, filterOut, i, names, first);
  }

  lemma NewNameScanned(raw: seq<string>, filterOut: map<string, int>, i: nat, ids: set<int>,
                       names: map<string, string>, first: map<string, nat>)
    requires i < |raw| && ScannedUpTo(raw, filterOut, i, ids, names, first)
    requires NameEligible(raw[i], filterOut) && AsciiFold(raw[i]) !in names
    ensures ScannedUpTo(raw, filterOut, i + 1, ids, names[AsciiFold(raw[i]) := raw[i]],
                        first[AsciiFold(raw[i]) := i])
  {
    NameKeysNext(raw, filterOut, i);
    IdsNext(raw, filterOut, i);
    FirstOfNewName(raw, filterOut, i, names.Keys);
    FirstsKeptAdd(raw, filterOut, i, names, first);
  }

  lemma KnownNameScanned(raw: seq<string>, filterOut: map<string, int>, i: nat, ids: set<int>,
                         names: map<string, string>, first: map<string, nat>)
    requires i < |raw| && ScannedUpTo(raw, filterOut, i, ids, names, first)
    requires !IsId(raw[i]) && !(NameEligible(raw[i], filterOut) && AsciiFold(raw[i]) !in names)
    ensures ScannedUpTo(raw, filterOut, i + 1, ids, names, first)
  {
    IdsNext(raw, filterOut, i);
    NameKeysNext(raw, filterOut, i);
    if NameEligible(raw[i], filterOut) {
      assert NameKeysOf(raw[..i + 1], filterOut) == NameKeysOf(raw[..i], filterOut) + {AsciiFold(raw[i])};
    } else {
      assert NameKeysOf(raw[..i + 1], filterOut) == NameKeysOf(raw[..i], filterOut);
    }
    FirstsKeptGrow(raw, filterOut, i, names, first);
  }

  /** An eligible entry whose name was not seen before is the first of its name. */
  lemma FirstOfNewName(raw: seq<string>, filterOut: map<string, int>, i: nat, seen: set<string>)
    requires i < |raw| && NameEligible(raw[i], filterOut)
    requires seen == NameKeysOf(raw[..i], filterOut) && AsciiFold(raw[i]) !in seen
    ensures FirstOfItsName(raw, filterOut, i)
  {
    forall j | 0 <= j < i && NameEligible(raw[j], filterOut)
      ensures AsciiFold(raw[j]) != AsciiFold(raw[i])
    {
      assert raw[j] in raw[..i];
    }
  }

  lemma IdsNext(raw: seq<string>, filterOut: map<string, int>, i: nat)
    requires i < |raw|
    ensures var e := raw[i];
            IdsOf(raw[..i + 1], filterOut)
            == IdsOf(raw[..i], filterOut)
               + (if IsId(e) && ParseInt(e, I64).value !in filterOut.Values then {ParseInt(e, I64).value} else {})
  {
    assert raw[..i + 1] == raw[..i] + [raw[i]];
  }

  lemma NameKeysNext(raw: seq<string>, filterOut: map<string, int>, i: nat)
    requires i < |raw|
    ensures var e := raw[i];
            NameKeysOf(raw[..i + 1], filterOut)
            == NameKeysOf(raw[..i], filterOut) + (if NameEligible(e, filterOut) then {AsciiFold(e)} else {})
  {
    assert raw[..i + 1] == raw[..i] + [raw[i]];
  }

  /**
   * No entry lands in both sets: an entry that parses as an integer never yields a name, and
   * one that does not never yields an id.
   */
  lemma EntriesGoOneWay(raw: seq<string>, filterOut: map<string, int>, e: string)
    requires e in raw
    ensures IsId(e) ==> !NameEligible(e, filterOut)
    ensures IsId(e) && ParseInt(e, I64).value !in filterOut.Values ==> ParseInt(e, I64).value in IdsOf(raw, filterOut)
    ensures !IsId(e) && AsciiFold(e) !in FoldedKeys(filterOut) ==> AsciiFold(e) in NameKeysOf(raw, filterOut)
  {
  }

  /** A name that differs from a `filter_out` key only in case is filtered out too. */
  lemma FilterIgnoresCase(raw: seq<string>, filterOut: map<string, int>, e: string, k: string)
    requires k in filterOut && EqIgnoreAsciiCase(e, k)
    ensures AsciiFold(e) !in NameKeysOf(raw, filterOut)
  {
    EqIgnoreAsciiCaseIsFoldEquality(e, k);
    forall e' | e' in raw && NameEligible(e', filterOut) ensures AsciiFold(e') != AsciiFold(e) {
      assert AsciiFold(k) in FoldedKeys(filterOut);
    }
  }

  // ---------------------------------------------------------------- get_description

  /** `tl::enums::BotMenuButton`: only the `Button` form has a text and a url. */
  datatype MenuButton = MenuDefault | MenuCommands | MenuLink(text: string, url: string)

  /** `tl::types::BotInfo`, the fields the description reads. */
  datatype BotInfo = BotInfo(description: Option<string>, menuButton: Option<MenuButton>,
                             commands: Option<seq<TlBotCommand>>)

  /** `tl::types::UserFull`, the fields the description reads. */
  datatype UserFull = UserFull(about: Option<string>, botInfo: Option<BotInfo>)

  /** The kinds of packed chat: users and bots are described from their full user. */
  datatype PackedType = User | Bot | Chat | Megagroup | Broadcast | Gigagroup

  function ConvertCommands(cs: seq<TlBotCommand>): (r: seq<BotCommand>)
    ensures |r| == |cs|
    ensures forall i | 0 <= i < |cs| :: r[i] == ConvertBotCommand(cs[i])
  {
    seq(|cs|, i requires 0 <= i < |cs| => ConvertBotCommand(cs[i]))
  }

  /** The text a bot's info appends: its description, then its menu link, each after a blank line. */
  function BotSuffix(info: BotInfo): string {
    (if info.description.Some? then "\n\n" + info.description.value else "")
    + (if info.menuButton.Some? && info.menuButton.value.MenuLink? then
         "\n\n[" + info.menuButton.value.text + "](" + info.menuButton.value.url + ")"
       else "")
  }

  /**
   * The user or bot branch of `get_description`: `lookup` is the answer to GetFullUser, an
   * error text when it failed.
   */
  method UserDescription(lookup: Result<UserFull, string>) returns (description: string, commands: Option<seq<BotCommand>>)
    ensures lookup.Err? ==> description == lookup.error && commands.None?
    ensures lookup.Ok? ==>
              var u := lookup.value;
              && description == u.about.GetOr("") + (if u.botInfo.Some? then BotSuffix(u.botInfo.value) else "")
              && (commands.Some? <==> u.botInfo.Some? && u.botInfo.value.commands.Some?)
              && (commands.Some? ==> commands.value == ConvertCommands(u.botInfo.value.commands.value))
  {
    if lookup.Err? {
      return lookup.error, None;
    }
    var u := lookup.value;
    var base := u.about.GetOr("");
    if u.botInfo.Some? {
      var info := u.botInfo.value;
      ghost var about := base;
      if info.description.Some? {
        base := base + "\n\n";
        base := base + info.description.value;
      }
      ghost var descPart := if info.description.Some? then "\n\n" + info.description.value else "";
      assert base == about + descPart;
      if info.menuButton.Some? && info.menuButton.value.MenuLink? {
        base := base + "\n\n[";
        base := base + info.menuButton.value.text;
        base := base + "](";
        base := base + info.menuButton.value.url;
        base := base + [')'];
        assert base == about + descPart
                       + ("\n\n[" + info.menuButton.value.text + "](" + info.menuButton.value.url + ")");
      }
      assert base == about + BotSuffix(info);
      if info.commands.Some? {
        return base, Some(ConvertCommands(info.commands.value));
      }
    }
    return base, None;
  }

  /** The chat, group or channel branch: the `about` text, or the error text; never any commands. */
  function ChatDescription(lookup: Result<string, string>): (r: (string, Option<seq<BotCommand>>))
    ensures r.1.None?
    ensures lookup.Ok? ==> r.0 == lookup.value
    ensures lookup.Err? ==> r.0 == lookup.error
  {
    (if lookup.Ok? then lookup.value else lookup.error, None)
  }

  /** `get_description`: users and bots are described from GetFullUser, every other kind from its full chat. */
  method GetDescription(ty: PackedType, userLookup: Result<UserFull, string>, chatLookup: Result<string, string>)
    returns (description: string, commands: Option<seq<BotCommand>>)
    ensures !(ty == User || ty == Bot) ==> (description, commands) == ChatDescription(chatLookup)
    ensures commands.Some? ==> (ty == User || ty == Bot) && userLookup.Ok?
    ensures (ty == User || ty == Bot) && userLookup.Err? ==> description == userLookup.error && commands.None?
    ensures (ty == User || ty == Bot) && userLookup.Ok? ==>
              var u := userLookup.value;
              && description == u.about.GetOr("") + (if u.botInfo.Some? then BotSuffix(u.botInfo.value) else "")
              && (commands.Some? <==> u.botInfo.Some? && u.botInfo.value.commands.Some?)
              && (commands.Some? ==> commands.value == ConvertCommands(u.botInfo.value.commands.value))
  {
    if ty == User || ty == Bot {
      description, commands := UserDescription(userLookup);
    } else {
      var r := ChatDescription(chatLookup);
      description, commands := r.0, r.1;
    }
  }

  /** A user's own `about` text always opens the description, whatever the bot info adds. */
  lemma AboutOpensDescription(u: UserFull)
    ensures var d := u.about.GetOr("") + (if u.botInfo.Some? then BotSuffix(u.botInfo.value) else "");
            u.about.GetOr("") <= d
            && (u.botInfo.None? ==> d == u.about.GetOr(""))
  {
  }

  /** The bot's description comes before its menu link, each introduced by a blank line. */
  lemma BotSuffixOrder(info: BotInfo)
    requires info.description.Some? && info.menuButton.Some? && info.menuButton.value.MenuLink?
    ensures var s := BotSuffix(info);
            var d := info.description.value;
            && s[..2 + |d|] == "\n\n" + d
            && s[2 + |d|..4 + |d|] == "\n\n"
            && s[|s| - 1] == ')'
  {
  }

  // ---------------------------------------------------------------- access_channel

  /** The kind of a resolved chat. */
  datatype ChatKind = ChannelKind | GroupKind | UserKind

  /** The one-byte type stored with an invite: 'C', 'G' or 'U', as a signed byte. */
  function KindCode(kind: ChatKind): (r: int)
    ensures -128 <= r < 128
    ensures kind == ChannelKind ==> r == 'C' as int
    ensures kind == GroupKind ==> r == 'G' as int
    ensures kind == UserKind ==> r == 'U' as int
  {
    match kind
    case ChannelKind => 'C' as int
    case GroupKind => 'G' as int
    case UserKind => 'U' as int
  }

  /** Different kinds are stored under different codes. */
  lemma KindCodeInjective(a: ChatKind, b: ChatKind)
    ensures KindCode(a) == KindCode(b) <==> a == b
  {
  }

  /** The recorded name of a peer: its username, else its display name, else "channel#<id>". */
  function PeerName(username: Option<string>, name: Option<string>, id: int): (r: string)
    ensures username.Some? ==> r == username.value
    ensures username.None? && name.Some? ==> r == name.value
    ensures username.None? && name.None? ==> r == "channel#" + FormatInt(id)
  {
    if username.Some? then username.value
    else if name.Some? then name.value
    else "channel#" + FormatInt(id)
  }

  /** The fallback name carries the peer's id: parsing what follows "channel#" gives it back. */
  lemma FallbackNameCarriesId(id: int)
    requires I64_MIN <= id <= I64_MAX
    ensures var r := PeerName(None, None, id);
            |r| > 8 && r[..8] == "channel#" && ParseInt(r[8..], I64) == Some(id)
  {
    ParseFormatRoundTrip(id, I64);
    DecimalDigits(if id < 0 then -id else id);
    var r := PeerName(None, None, id);
    assert r[8..] == FormatInt(id);
  }

  /** `telegram::Channel` */
  datatype Channel = Channel(id: int, name: string, accessHash: int, appId: int)

  /** `telegram::User`: a user peer and the name it was looked up by. */
  datatype UserPeer = UserPeer(peer: Channel, hashName: string)

  datatype Either<L, R> = Left(left: L) | Right(right: R)

  /**
   * The value `access_channel` returns for a resolved chat looked up by `lookupName`: users
   * are returned on the right with that name, every other kind on the left.
   */
  function AccessedPeer(kind: ChatKind, id: int, username: Option<string>, name: Option<string>,
                        accessHash: Option<int>, lookupName: string): (r: Either<Channel, UserPeer>)
    ensures r.Right? <==> kind == UserKind
    ensures var peer := if r.Right? then r.right.peer else r.left;
            && peer.id == id && peer.name == PeerName(username, name, id) && peer.appId == 0
            && peer.accessHash == accessHash.GetOr(0)
    ensures r.Right? ==> r.right.hashName == lookupName
  {
    var peer := Channel(id, PeerName(username, name, id), accessHash.GetOr(0), 0);
    if kind == UserKind then Right(UserPeer(peer, lookupName)) else Left(peer)
  }
}
