/**
 * The storable message record of the Telegram crawler and its conversions from the
 * Telegram API (TL) objects: buttons, reply markups, peers, messages and bot commands.
 * TL fields the conversions never read are left out of the TL side of the model; nested
 * TL objects the record keeps only as "present" are `TlObject` values.
 */
module TelegramTypes {
  import opened Wrappers
  import opened Strings

  /** A TL object the record does not look into (a forward header, a media, an entity, ...). */
  datatype TlObject = TlObject(payload: string)

  // ---------------------------------------------------------------- buttons

  /** `tl::enums::KeyboardButton`: thirteen kinds carry only a text, five a text and a url. */
  datatype TlKeyboardButton =
    | KbButton(text: string)
    | KbCallback(text: string)
    | KbRequestPhone(text: string)
    | KbRequestGeoLocation(text: string)
    | KbSwitchInline(text: string)
    | KbGame(text: string)
    | KbBuy(text: string)
    | KbRequestPoll(text: string)
    | KbInputUserProfile(text: string)
    | KbUserProfile(text: string)
    | KbRequestPeer(text: string)
    | KbInputRequestPeer(text: string)
    | KbCopy(text: string)
    | KbWebView(text: string, url: string)
    | KbSimpleWebView(text: string, url: string)
    | KbUrl(text: string, url: string)
    | KbUrlAuth(text: string, url: string)
    | KbInputUrlAuth(text: string, url: string)

  /** The kinds of button whose TL object has a url field. */
  predicate HasUrlField(b: TlKeyboardButton) {
    b.KbWebView? || b.KbSimpleWebView? || b.KbUrl? || b.KbUrlAuth? || b.KbInputUrlAuth?
  }

  datatype Button = Button(text: string, url: Option<string>)

  /** `impl From<tl::enums::KeyboardButton> for Button` */
  function ConvertButton(b: TlKeyboardButton): (r: Button)
    ensures r.text == b.text
    ensures r.url.Some? <==> HasUrlField(b)
    ensures HasUrlField(b) ==> r.url == Some(b.url)
  {
    match b
    case KbWebView(text, url) => Button(text, Some(url))
    case KbSimpleWebView(text, url) => Button(text, Some(url))
    case KbUrl(text, url) => Button(text, Some(url))
    case KbUrlAuth(text, url) => Button(text, Some(url))
    case KbInputUrlAuth(text, url) => Button(text, Some(url))
    case _ => Button(b.text, None)
  }

  // ---------------------------------------------------------------- reply markup

  /** `tl::enums::ReplyMarkup`; a keyboard row is the list of its buttons. */
  datatype TlReplyMarkup =
    | KeyboardHide(selective: bool)
    | KeyboardForceReply(singleUse: bool, selective: bool, placeholder: Option<string>)
    | KeyboardMarkup(resize: bool, singleUse: bool, selective: bool, persistent: bool,
                     rows: seq<seq<TlKeyboardButton>>, placeholder: Option<string>)
    | InlineMarkup(rows: seq<seq<TlKeyboardButton>>)

  datatype ReplyMarkup = ReplyMarkup(
    singleUse: Option<bool>,
    selective: Option<bool>,
    placeholder: Option<string>,
    resize: Option<bool>,
    persistent: Option<bool>,
    rows: seq<seq<Button>>)

  function ConvertRow(row: seq<TlKeyboardButton>): (r: seq<Button>)
    ensures |r| == |row|
    ensures forall j | 0 <= j < |row| :: r[j] == ConvertButton(row[j])
  {
    seq(|row|, j requires 0 <= j < |row| => ConvertButton(row[j]))
  }

  function ConvertRows(rows: seq<seq<TlKeyboardButton>>): (r: seq<seq<Button>>)
    ensures |r| == |rows|
    ensures forall i | 0 <= i < |rows| :: r[i] == ConvertRow(rows[i])
  {
    seq(|rows|, i requires 0 <= i < |rows| => ConvertRow(rows[i]))
  }

  /** `impl From<tl::enums::ReplyMarkup> for ReplyMarkup` */
  function ConvertReplyMarkup(m: TlReplyMarkup): (r: ReplyMarkup)
    ensures m.KeyboardHide? || m.KeyboardForceReply? ==> r.rows == []
    ensures m.KeyboardHide? ==> r == ReplyMarkup(None, Some(m.selective), None, None, None, [])
    ensures m.InlineMarkup? ==> r.singleUse.None? && r.selective.None? && r.placeholder.None?
                                && r.resize.None? && r.persistent.None?
    ensures m.KeyboardMarkup? || m.InlineMarkup? ==> r.rows == ConvertRows(m.rows)
    ensures m.KeyboardForceReply? || m.KeyboardMarkup? ==>
              r.singleUse == Some(m.singleUse) && r.selective == Some(m.selective)
              && r.placeholder == m.placeholder
    ensures m.KeyboardMarkup? ==> r.resize == Some(m.resize) && r.persistent == Some(m.persistent)
    ensures m.KeyboardForceReply? ==> r.resize.None? && r.persistent.None?
  {
    match m
    case KeyboardHide(selective) =>
      ReplyMarkup(None, Some(selective), None, None, None, [])
    case KeyboardForceReply(singleUse, selective, placeholder) =>
      ReplyMarkup(Some(singleUse), Some(selective), placeholder, None, None, [])
    case KeyboardMarkup(resize, singleUse, selective, persistent, rows, placeholder) =>
      ReplyMarkup(Some(singleUse), Some(selective), placeholder, Some(resize), Some(persistent),
                  ConvertRows(rows))
    case InlineMarkup(rows) =>
      ReplyMarkup(None, None, None, None, None, ConvertRows(rows))
  }

  /** A keyboard keeps its shape: as many rows, as many buttons per row, each converted in place. */
  lemma ReplyMarkupKeepsShape(m: TlReplyMarkup, i: nat, j: nat)
    requires m.KeyboardMarkup? || m.InlineMarkup?
    requires i < |m.rows| && j < |m.rows[i]|
    ensures |ConvertReplyMarkup(m).rows| == |m.rows|
    ensures |ConvertReplyMarkup(m).rows[i]| == |m.rows[i]|
    ensures ConvertReplyMarkup(m).rows[i][j].text == m.rows[i][j].text
  {
  }

  // ---------------------------------------------------------------- peers

  /** `tl::enums::Peer` */
  datatype TlPeer = PeerChannel(channelId: int) | PeerChat(chatId: int) | PeerUser(userId: int)

  datatype Peer = Peer(id: int)

  /** `impl From<tl::enums::Peer> for Peer`: the numeric id, whatever kind of peer it names. */
  function ConvertPeer(p: TlPeer): (r: Peer)
    ensures p.PeerChannel? ==> r.id == p.channelId
    ensures p.PeerChat? ==> r.id == p.chatId
    ensures p.PeerUser? ==> r.id == p.userId
  {
    match p
    case PeerChannel(id) => Peer(id)
    case PeerChat(id) => Peer(id)
    case PeerUser(id) => Peer(id)
  }

  function ConvertPeerOpt(p: Option<TlPeer>): (r: Option<Peer>)
    ensures r.Some? <==> p.Some?
    ensures p.Some? ==> r.value == ConvertPeer(p.value)
  {
    if p.Some? then Some(ConvertPeer(p.value)) else None
  }

  // ---------------------------------------------------------------- messages

  /** The twelve boolean flags of a message, copied as they are. */
  datatype MessageFlags = MessageFlags(
    out: bool, mentioned: bool, mediaUnread: bool, silent: bool, post: bool,
    fromScheduled: bool, legacy: bool, editHide: bool, pinned: bool, noforwards: bool,
    invertMedia: bool, offline: bool)

  /** `tl::types::Message`, the fields the conversion reads. */
  datatype TlMessage = TlMessage(
    flags: MessageFlags,
    id: Int32,
    fromId: Option<TlPeer>,
    fromBoostsApplied: Option<int>,
    peerId: TlPeer,
    savedPeerId: Option<TlPeer>,
    fwdFrom: Option<TlObject>,
    viaBotId: Option<int>,
    viaBusinessBotId: Option<int>,
    replyTo: Option<TlObject>,
    date: int,
    message: string,
    media: Option<TlObject>,
    replyMarkup: Option<TlReplyMarkup>,
    entities: Option<seq<TlObject>>,
    views: Option<int>,
    forwards: Option<int>,
    replies: Option<TlObject>,
    editDate: Option<int>,
    postAuthor: Option<string>,
    groupedId: Option<int>,
    reactions: Option<TlObject>,
    restrictionReason: Option<seq<TlObject>>,
    ttlPeriod: Option<int>,
    quickReplyShortcutId: Option<int>)

  /** The stored message: nested objects the crawler does not keep are reduced to "present". */
  datatype Message = Message(
    flags: MessageFlags,
    id: Int32,
    fromId: Option<Peer>,
    fromBoostsApplied: Option<int>,
    peerId: Peer,
    savedPeerId: Option<Peer>,
    fwdFrom: Option<()>,
    viaBotId: Option<int>,
    viaBusinessBotId: Option<int>,
    replyTo: Option<()>,
    date: int,
    message: string,
    media: Option<()>,
    replyMarkup: Option<ReplyMarkup>,
    entities: Option<seq<()>>,
    views: Option<int>,
    forwards: Option<int>,
    replies: Option<()>,
    editDate: Option<int>,
    postAuthor: Option<string>,
    groupedId: Option<int>,
    reactions: Option<()>,
    restrictionReason: Option<seq<()>>,
    ttlPeriod: Option<int>,
    quickReplyShortcutId: Option<int>)

  function Present<T>(o: Option<T>): (r: Option<()>)
    ensures r.Some? <==> o.Some?
  {
    if o.Some? then Some(()) else None
  }

  function Units<T>(o: Option<seq<T>>): (r: Option<seq<()>>)
    ensures r.Some? <==> o.Some?
    ensures o.Some? ==> |r.value| == |o.value|
  {
    if o.Some? then Some(seq(|o.value|, _ => ())) else None
  }

  function ConvertMarkupOpt(m: Option<TlReplyMarkup>): (r: Option<ReplyMarkup>)
    ensures r.Some? <==> m.Some?
    ensures m.Some? ==> r.value == ConvertReplyMarkup(m.value)
  {
    if m.Some? then Some(ConvertReplyMarkup(m.value)) else None
  }

  /** `impl From<tl::types::Message> for Message` */
  function ConvertMessage(m: TlMessage): (r: Message)
    ensures r.flags == m.flags && r.id == m.id && r.date == m.date && r.message == m.message
    ensures r.fromBoostsApplied == m.fromBoostsApplied && r.viaBotId == m.viaBotId
    ensures r.viaBusinessBotId == m.viaBusinessBotId && r.views == m.views
    ensures r.forwards == m.forwards && r.editDate == m.editDate
    ensures r.postAuthor == m.postAuthor && r.groupedId == m.groupedId
    ensures r.ttlPeriod == m.ttlPeriod && r.quickReplyShortcutId == m.quickReplyShortcutId
    ensures r.peerId.id == ConvertPeer(m.peerId).id
    ensures r.fromId.Some? <==> m.fromId.Some?
    ensures r.savedPeerId.Some? <==> m.savedPeerId.Some?
    ensures r.fwdFrom.Some? <==> m.fwdFrom.Some?
    ensures r.replyTo.Some? <==> m.replyTo.Some?
    ensures r.media.Some? <==> m.media.Some?
    ensures r.replies.Some? <==> m.replies.Some?
    ensures r.reactions.Some? <==> m.reactions.Some?
    ensures r.replyMarkup.Some? <==> m.replyMarkup.Some?
    ensures r.entities.Some? <==> m.entities.Some?
    ensures m.entities.Some? ==> |r.entities.value| == |m.entities.value|
    ensures r.restrictionReason.Some? <==> m.restrictionReason.Some?
    ensures m.restrictionReason.Some? ==> |r.restrictionReason.value| == |m.restrictionReason.value|
  {
    Message(
      m.flags, m.id, ConvertPeerOpt(m.fromId), m.fromBoostsApplied, ConvertPeer(m.peerId),
      ConvertPeerOpt(m.savedPeerId), Present(m.fwdFrom), m.viaBotId, m.viaBusinessBotId,
      Present(m.replyTo), m.date, m.message, Present(m.media), ConvertMarkupOpt(m.replyMarkup),
      Units(m.entities), m.views, m.forwards, Present(m.replies), m.editDate, m.postAuthor,
      m.groupedId, Present(m.reactions), Units(m.restrictionReason), m.ttlPeriod,
      m.quickReplyShortcutId)
  }

  // ---------------------------------------------------------------- bot commands

  /** `tl::enums::BotCommand` */
  datatype TlBotCommand = TlBotCommand(command: string, description: string)

  datatype BotCommand = BotCommand(command: string, description: string)

  /** `impl From<tl::enums::BotCommand> for BotCommand` */
  function ConvertBotCommand(c: TlBotCommand): (r: BotCommand)
    ensures r.command == c.command && r.description == c.description
  {
    BotCommand(c.command, c.description)
  }
}
