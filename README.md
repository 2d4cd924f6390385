# underground-scraper, modelled in Dafny

underground-scraper is a set of scrapers for underground marketplaces and forums (BlackHatWorld,
Hack Forums, accsmarket, ezkify and smmrapid) plus a Telegram channel crawler. Each scraper fetches
list pages, picks rows out of the HTML, turns each row into a record and writes the batch to
PostgreSQL. The Telegram crawler downloads channel history in batches and keeps, per channel, the
interval of message ids it already holds. It also extracts `t.me`-style invite links from message
text and probes the channels it finds. A helper script, `apply_patch.py`, checks vendored crates and
the Rust standard library against patch files by git blob hashes and reports what to re-apply.

This project models the sequential logic of those programs and proves what it promises:

- **Telegram ingestion** (`telegram_ingest.dfy`): batch bounds; interval widening only after a
  successful upsert; the monotone stop point; and the buffer-and-flush loop of `fetch_content`,
  driven by a finite trace of stream events.
- **Telegram link extraction** (`telegram_extract.dfy`): the prefix matcher, the identifier-token
  cut and the `Inspector` with its dedup set and append-only list.
- **Telegram type conversions** (`telegram_types.dfy`) and **channel probing** (`telegram_ping.dfy`):
  field-by-field `From` conversions, id/name separation, descriptions and the kind-code fallback.
- **Work-id queue** (`work_queue.dfy`): the list of thread ids the Hack Forums worker service hands
  out 50 at a time by rotation.
- **Date templates** (`date_template.dfy`): the fixed-width rewriting of forum dates into an
  IMF-fixdate (section 7.1.1.1 of RFC 7231), including the 12-hour to 24-hour carry.
- **Site scrapers** (`hackforums_scrape.dfy`, `blackhatworld_scrape.dfy`, `accsmarket.dfy`,
  `ezkify_main.dfy`, `ezkify_parse.dfy`, `ezkify_item.dfy`): per-row field parsers, lenient row
  skipping, empty-batch guards and the category carried across sibling rows. They work over an
  abstract HTML tree (`dom.dfy`).
- **BlackHatWorld browser worker** (`bhw_worker.dfy`, `bhw_main.dfy`, `bhw_browser.dfy`): the proxy
  URL, the page check, the retry and delay rules, the worker configuration filter and the header
  capture.
- **Patch checker** (`apply_patch.dfy`): header parsing, blob-hash checks, the
  CLEAN/PATCHED/BROKEN/DISCARD state machine, crate lookup and the per-status actions.
- **Database helpers** (`db.dfy`): the JSONB version byte, array dimension and lower bound,
  connection reuse and checked column narrowing.
- **Shared text helpers** (`common.dfy`): Rust-style integer parsing and formatting, Unicode
  whitespace trimming, search and replace, and `filter_map(..).collect()`.

Code that changes state in place is imperative Dafny:
- the `Inspector` and the work-id queue are classes;
- the date buffers are arrays;
- the scanning and collecting loops are methods with invariants, each proved against a function
  that states what it computes.

Parsing and conversion code is written as functions, with lemmas for round trips, bounds and
invariants.

## Model

| member | source | states |
|---|---|---|
| Strings.ParseInt | src/hackforums/scrape.rs:97 | `str::parse` into a Rust integer type succeeds only on an optional sign ('-' only for signed types) followed by ASCII digits, and only with a value inside the type's range |
| Strings.ParseIntMeaning | src/hackforums/scrape.rs:97 | `str::parse` succeeds exactly when the text after one optional sign ('-' only for a signed type) is one or more ASCII digits whose value, negated after '-', lies in the type's range, and the result is that value |
| Strings.ParseIntSigns | src/hackforums/scrape.rs:97 | "+5" parses to 5; "-0" is 0 for i32 and an error for u16 |
| Strings.ParseIntLeadingZeros | src/hackforums/scrape.rs:97 | "007" parses to 7 |
| Strings.ParseIntMalformed | src/hackforums/scrape.rs:97 | a sign alone, the empty string and a doubled sign are errors |
| Strings.ParseIntRange | src/hackforums/scrape.rs:97 | "65535" fits a u16 and "65536" does not |
| Strings.DecimalDigits | src/blackhatworld-worker/worker.rs:22 | the decimal rendering of a natural number is a non-empty digit string whose value is that number |
| Strings.ParseFormatRoundTrip | src/hackforums/scrape.rs:97 | parsing the decimal rendering of any in-range integer gives the integer back |
| Strings.TrimStartSpec | src/hackforums/scrape.rs:92 | `trim_start` drops exactly the leading Unicode whitespace, keeping a suffix that does not start with whitespace |
| Strings.TrimEndSpec | src/hackforums/scrape.rs:92 | `trim_end` drops exactly the trailing Unicode whitespace, keeping a prefix that does not end with whitespace |
| Strings.TrimSpec | src/hackforums/scrape.rs:92 | `trim` keeps the contiguous middle of the text between its leading and trailing whitespace, and that middle neither starts nor ends with whitespace |
| Strings.RemoveWhitespace | src/ezkify/main.rs:112-116 | removing whitespace leaves no whitespace character and never lengthens the text |
| Strings.RemoveWhitespaceAppend | src/ezkify/main.rs:112-116 | removing whitespace distributes over concatenation |
| Strings.RemoveWhitespaceConcat | src/ezkify/main.rs:112-116 | removing whitespace from each text node and then concatenating equals removing it from the concatenated text |
| Strings.MapRemoveWhitespace | src/ezkify/main.rs:114 | whitespace is removed from each piece, piece by piece |
| Strings.MapTrim | src/blackhatworld/scrape.rs:98 | each piece is trimmed, piece by piece |
| Strings.ReplaceChar | src/hackforums/scrape.rs:101-102 | replacing a character by a text that does not contain it removes every occurrence, and the length changes by the replacement's extra length once per occurrence |
| Strings.ReplaceCharAppend | src/hackforums/scrape.rs:101-102 | character replacement distributes over concatenation |
| Strings.ReplaceAbsent | src/hackforums/scrape.rs:101-102 | replacing a character that does not occur leaves the text unchanged |
| Strings.StripPrefix | src/telegram/extract.rs:23-43 | stripping a prefix succeeds exactly when the text starts with it, and then the text is the prefix followed by the result |
| Strings.FindFrom | src/blackhatworld-worker/worker.rs:55 | the search from a position returns the first occurrence at or after it, or none when there is no occurrence there |
| Strings.Find | src/blackhatworld-worker/worker.rs:55 | `str::find` returns the first index where the pattern occurs, or none exactly when it occurs nowhere |
| Strings.AsciiFold | src/blackhatworld-worker/browser.rs:40-42 | ASCII folding lower-cases each character in place and keeps the length |
| Strings.EqIgnoreAsciiCaseIsFoldEquality | src/blackhatworld-worker/browser.rs:40-42 | `eq_ignore_ascii_case` holds exactly when both texts fold to the same text |
| FilterMap.Collect | src/blackhatworld/scrape.rs:71-119 | collecting a `filter_map` fails exactly when some item panics, and otherwise keeps at most one value per item |
| FilterMap.CollectAppend | src/blackhatworld/scrape.rs:71-119 | collecting two runs of items one after the other equals collecting each and joining, a panic in either ending the whole |
| FilterMap.CollectAllKept | src/blackhatworld/scrape.rs:71-119 | when every item yields a value, the collection is exactly those values in order |
| FilterMap.JudgeAppend | src/blackhatworld/scrape.rs:71-72 | judging two runs of items is judging each run and concatenating |
| Dom.Attr | src/hackforums/scrape.rs:97 | an attribute is present exactly on an element that carries that key, and its value is the element's value for that key |
| Dom.ChildElements | src/hackforums/scrape.rs:113 | the child elements are elements among the children, and every element child is among them |
| Dom.ChildElementsInOrder | src/hackforums/scrape.rs:113 | the child elements of a concatenation are those of each part in turn, and a single node contributes itself exactly when it is an element, so the children keep their document order |
| Dom.ChildElementsAppend | src/hackforums/scrape.rs:113 | the child elements of a concatenation of children are the child elements of the first part followed by those of the second |
| Dom.SelectFirst | src/accsmarket/main.rs:37 | `select(..).next()` is None exactly when the full match list is empty, and otherwise its first entry |
| Dom.PreorderVisitsBelow | src/accsmarket/main.rs:37 | the document-order walk visits exactly the nodes that lie below the element, each with its own parent |
| Dom.SelectInPreorder | src/accsmarket/main.rs:37 | the selection below a forest is its document-order walk filtered by the selector |
| Dom.SelectSpec | src/accsmarket/main.rs:37 | `select` lists the matching descendants in document order, and a node is listed exactly when it is a proper descendant that matches the selector together with its parent |
| Dom.FoundFirst | src/accsmarket/main.rs:37 | the filtered walk is empty exactly when nothing in the walk matches, and otherwise starts with the first match |
| Dom.SelectFirstSpec | src/accsmarket/main.rs:37 | `select(..).next()` is the first descendant in document order that matches, with no match before it, and None exactly when no descendant matches |
| Dom.SelectId | src/ezkify/main.rs:73 | an element found by id is an element whose id attribute is that id |
| Dom.SelectIdInPreorder | src/ezkify/main.rs:73 | the search by id returns the first node of the document-order walk that has the id |
| Dom.SelectIdSpec | src/ezkify/main.rs:73 | `select("#id").next()` is the first descendant element in document order whose id is that id, and None exactly when no descendant has it |
| Dom.SelectFindsElements | src/hackforums/scrape.rs:89 | every node a selector matches is an element |
| TelegramIngest.BatchMin | src/telegram/telegram.rs:248 | the fold's result is the least id of the batch and one of its ids; on an empty batch it is i32::MAX |
| TelegramIngest.BatchMax | src/telegram/telegram.rs:249 | the fold's result is the greatest id of the batch and one of its ids; on an empty batch it is i32::MIN |
| TelegramIngest.Widen | src/telegram/telegram.rs:274-281 | after a successful upsert the interval exists, covers the batch range and the old interval, and is exactly the batch range when there was none |
| TelegramIngest.WidenIsTight | src/telegram/telegram.rs:276-277 | each widened bound is either the old bound or the batch's own, so low never rises and high never falls beyond what is needed |
| TelegramIngest.WidenIdempotent | src/telegram/telegram.rs:274-281 | upserting the same batch range a second time leaves the interval as it is |
| TelegramIngest.Ids | src/telegram/telegram.rs:257 | the id column of a batch has one entry per message, each the message's id, in order |
| TelegramIngest.InsertToDb | src/telegram/telegram.rs:236-299 | an empty batch makes no database call and returns None with the interval unchanged; a failed upsert returns None after one call with the interval unchanged; a successful one returns the batch max, widens the interval and writes that interval back, and the result does not depend on whether the write-back succeeds |
| TelegramIngest.InitialInterval | src/telegram/telegram.rs:311-328 | a stored range that could not be read, or (0, 0), is no range; any other stored range is taken as it is |
| TelegramIngest.InitialStopPoint | src/telegram/telegram.rs:329 | the stop point starts at the stored high, or 0 without a range |
| TelegramIngest.AsU32 | src/telegram/telegram.rs:343 | `r as u32` is the unsigned value in [0, 2^32) congruent to r modulo 2^32 |
| TelegramIngest.WrapI32 | src/telegram/telegram.rs:344 | reduction to i32 is congruent modulo 2^32 and the identity on values that fit |
| TelegramIngest.RaiseStop | src/telegram/telegram.rs:343-345 | the stop point never falls; it either stays or becomes high − limit (wrapping) when high read as u32 exceeds limit |
| TelegramIngest.RaiseStopNoWrap | src/telegram/telegram.rs:343-345 | for a non-negative high above the limit the new stop point is max(stop, high − limit) |
| TelegramIngest.RaiseStopBelowLimit | src/telegram/telegram.rs:343 | a non-negative high at or below the limit leaves the stop point unchanged |
| TelegramIngest.ReceivedIds | src/telegram/telegram.rs:368-374 | the ids received over a trace are at most one per turn |
| TelegramIngest.WidenAllCovers | src/telegram/telegram.rs:274-296 | after any run of upserts the interval still covers the starting interval and every id of every successful batch, and failed upserts alone leave it unchanged |
| TelegramIngest.StopPointMonotone | src/telegram/telegram.rs:344 | over any number of flushes the stop point never decreases |
| TelegramIngest.ReceivedIdsNext | src/telegram/telegram.rs:372-374 | one more turn adds exactly the id of the message it received, if any |
| TelegramIngest.AttemptsSnoc | src/telegram/telegram.rs:341 | one more upsert attempt appends its ids and applies its widening to the interval |
| TelegramIngest.Flush | src/telegram/telegram.rs:339-349 | a flush records one attempt with the buffer's ids, widens the interval by it, raises the stop point from the new interval, and stops the loop exactly when the upsert succeeded and the batch max is at or below the new stop point |
| TelegramIngest.FinalFlush | src/telegram/telegram.rs:359-369 | the flush that ends the loop records an attempt with the buffer's ids, or none when the buffer is empty |
| TelegramIngest.FlushAtEnd | src/telegram/telegram.rs:359-369 | after the final flush every id received so far lies in a batch handed to the database, and no batch is empty |
| TelegramIngest.Push | src/telegram/telegram.rs:372-374 | buffering a message keeps the earlier entries, appends its id and its converted form |
| TelegramIngest.Turn | src/telegram/telegram.rs:334-374 | one turn keeps the interval equal to the widening by all attempts and never lowers the stop point; it records an attempt with the buffer's ids and raises the stop point exactly when it fetches from the network with a non-empty buffer; it stops at the stop point exactly when that flush succeeded with a max at or below the raised stop point, and then every id received was handed to the database; otherwise it stops only on an RPC 400 error or at end of history, and every received id is flushed or still buffered, in arrival order |
| TelegramIngest.FlushFirst | src/telegram/telegram.rs:335-350 | a network fetch with a non-empty buffer first records one attempt with the buffer's ids and raises the stop point from the widened interval, and halts the loop exactly when that upsert succeeded with a max at or below the new stop point, else empties the buffer; any other step changes nothing |
| TelegramIngest.Act | src/telegram/telegram.rs:353-374 | a received message is buffered and a transient error changes nothing, and exactly these outcomes keep the loop going; an RPC 400 error or the end of history flush the buffer and end the loop |
| TelegramIngest.Round | src/telegram/telegram.rs:334-374 | one loop round extends the record of stop-point checks: each flush before a fetch adds its new stop point, no earlier flush halted, the round stops at the stop point exactly when its last flush halts, and an attempt left unchecked only comes from the flush on an RPC 400 error or at end of history; its batches, stop point, checks and reason for stopping are those of one step of the fold `Advance` |
| TelegramIngest.RecordTurn | src/telegram/telegram.rs:335-350 | a turn that flushes before a fetch appends exactly its new stop point to the record of checks, which stays the sequence of stop points raised after each checked flush |
| TelegramIngest.RecordFlush | src/telegram/telegram.rs:335-350 | a flush inside the loop extends the record by the stop point raised from the interval after it; the record stays complete, and the loop stops there exactly when that batch meets the raised stop point |
| TelegramIngest.StopsSnoc | src/telegram/telegram.rs:343-345 | one more checked flush appends the stop point raised from the interval widened by all flushes so far |
| TelegramIngest.FetchContent | src/telegram/telegram.rs:301-378 | the batches, the stop point, the checks and the reason for ending are exactly those of the fold `Fetched` over the turns taken, and that fold had not ended one turn earlier, so the loop stops at the first turn that ends it; the interval is the widening of the initial one by every attempt; the stop point never falls below the stored high; the loop ends at the stop point exactly when the last in-loop flush succeeded with its max at or below the stop point, and then every id received before that fetch was handed to the database; an RPC 400 error or end of history ends it after flushing everything received; when the trace runs out first, the batches hold a prefix of the ids received |
| TelegramIngest.Pass | src/telegram/telegram.rs:333-375 | one pass of the loop body on the trace: when it does not end the loop, the state after it is the fold `Fetched` over one more step and every id received is flushed or buffered; when it ends the loop, what the loop returns agrees with the fold and the last step is the one that ended it |
| TelegramIngest.RanOut | src/telegram/telegram.rs:333-375 | when the trace runs out between turns, the loop returns the fold's batches and stop point with no reason of its own, and the batches hold a prefix of the ids received |
| TelegramIngest.FetchedAccounts | src/telegram/telegram.rs:334-374 | while the fold has not ended, the batches it handed to the database followed by its buffer are exactly the ids received, in arrival order |
| TelegramIngest.AdvanceAccounts | src/telegram/telegram.rs:334-374 | one turn that does not end the loop keeps every id flushed or buffered and adds the id of the message it received, if any |
| TelegramIngest.TurnAdvances | src/telegram/telegram.rs:334-374 | the batches, stop point, checks and stop reason produced by one imperative turn are those of the fold step `Advance` |
| TelegramIngest.FetchedNext | src/telegram/telegram.rs:333 | the fold over one more step is the old fold, or one `Advance` of it when it had not ended |
| TelegramIngest.FetchedStep | src/telegram/telegram.rs:333-375 | from an unended fold, one more step is one `Advance`, and the result, if not ended, still accounts for every id received |
| TelegramExtract.AfterPrefix | src/telegram/extract.rs:21-43 | when a link starts at the 't', the part after its prefix begins past the 't' and inside the text |
| TelegramExtract.AfterDomain | src/telegram/extract.rs:32-43 | after one of the four domains (and an optional "joinchat") the rest starts at least four bytes further on |
| TelegramExtract.FirstIdcIn | src/telegram/extract.rs:46 | the position found is the first identifier byte of the window, and None means the window holds none |
| TelegramExtract.RunEnd | src/telegram/extract.rs:50-53 | the run from i holds only identifier bytes and ends at the end of the text or before a non-identifier byte |
| TelegramExtract.Cut | src/telegram/extract.rs:20-54 | a token is cut only at a 't' that starts a link; it begins at the first identifier byte within 8 bytes after the prefix, is non-empty, holds only identifier bytes and is maximal |
| TelegramExtract.RecordAt | src/telegram/extract.rs:46-68 | a position yields one record exactly when a token is cut there, and none otherwise |
| TelegramExtract.Tokens | src/telegram/extract.rs:56-66 | the token set holds every record's token and nothing else |
| TelegramExtract.TokensSnoc | src/telegram/extract.rs:56-66 | the tokens of two runs of records are the union of their tokens |
| TelegramExtract.RecordsStep | src/telegram/extract.rs:20-69 | scanning one more byte appends that byte's record and adds its token to the set |
| TelegramExtract.TokensOfOne | src/telegram/extract.rs:56-66 | no record adds no token and one record adds exactly its own |
| TelegramExtract.RecordsWellFormed | src/telegram/extract.rs:8-68 | every record carries the given channel and message ids and a non-empty token of identifier bytes that occurs in the text with no identifier byte after it |
| TelegramExtract.JoinFormSkipsDomain | src/telegram/extract.rs:27-28 | the "tg://join" form goes straight to the token, with no domain check and no "joinchat" strip |
| TelegramExtract.NoDomainNoLink | src/telegram/extract.rs:32-42 | without one of the four domains after the site name, the 't' yields nothing |
| TelegramExtract.InviteExample | src/telegram/extract.rs:20-54 | "t.me/joinchat/AbC" yields the invite hash "AbC" (bytes 14 to 17) |
| TelegramExtract.Inspector.constructor | src/telegram/extract.rs:12-16 | a new inspector has an empty token set and no records |
| TelegramExtract.Inspector.Inspect | src/telegram/extract.rs:19-70 | inspecting appends one record per link in text order and adds every cut token to the set, so the set only grows and holds every recorded token |
| TelegramExtract.Inspector.Take | src/telegram/extract.rs:20-68 | the loop body for one 't' appends that position's record and inserts its token only if it is new |
| TelegramTypes.ConvertButton | src/telegram/telegram/types.rs:13-38 | the text is always kept; the url is present exactly for the five url kinds and is theirs unchanged |
| TelegramTypes.ConvertRow | src/telegram/telegram/types.rs:57-58 | a row keeps its length and each button is converted in place |
| TelegramTypes.ConvertRows | src/telegram/telegram/types.rs:57-58 | the rows keep their number and each row is converted in place |
| TelegramTypes.ConvertReplyMarkup | src/telegram/telegram/types.rs:50-61 | hide and force-reply have no rows and hide sets only `selective`; keyboard and inline markups keep their rows; inline sets no flag; keyboard and force-reply keep their flags and placeholder |
| TelegramTypes.ReplyMarkupKeepsShape | src/telegram/telegram/types.rs:57-58 | the markup has as many rows as the source, each as many buttons, each with the same text |
| TelegramTypes.ConvertPeer | src/telegram/telegram/types.rs:67-78 | the peer keeps its numeric id for a channel, a chat and a user alike |
| TelegramTypes.ConvertPeerOpt | src/telegram/telegram/types.rs:138-141 | an optional peer is present iff it was, and then converted |
| TelegramTypes.Present | src/telegram/telegram/types.rs:142-159 | an opaque sub-object becomes a unit that is present iff it was |
| TelegramTypes.Units | src/telegram/telegram/types.rs:150-162 | an opaque list becomes a list of units that is present iff it was, with the same length |
| TelegramTypes.ConvertMarkupOpt | src/telegram/telegram/types.rs:149 | the reply markup is present iff it was, and then converted |
| TelegramTypes.ConvertMessage | src/telegram/telegram/types.rs:122-167 | the flags, id, date, text and numeric optionals are copied unchanged; the peer keeps its id; every optional field is present iff it was; the entity and restriction lists keep their lengths |
| TelegramTypes.ConvertBotCommand | src/telegram/telegram/types.rs:175-182 | a bot command keeps its command and its description |
| TelegramPing.SeparateIdAndNames | src/telegram/ping.rs:18-41 | the id set is exactly the entries that parse as i64 minus the values of `filter_out`; the name set holds, per case-folded name, exactly the non-integer entries with no `filter_out` key equal up to case, each stored as the first spelling met |
| TelegramPing.AddEntry | src/telegram/ping.rs:27-38 | one turn of the loop keeps the scan's invariant: the sets are those of the entries seen so far, names kept in their first spelling |
| TelegramPing.FirstsKeptGrow | src/telegram/ping.rs:33-36 | a name already stored keeps its first spelling when a later entry is scanned |
| TelegramPing.FirstsKeptAdd | src/telegram/ping.rs:35 | storing a new name under its folded key keeps every other name's first spelling |
| TelegramPing.IdEntryScanned | src/telegram/ping.rs:28-31 | an entry that parses as an integer adds its value to the ids unless `filter_out` holds it, and leaves the names alone |
| TelegramPing.NewNameScanned | src/telegram/ping.rs:33-36 | a new eligible name is stored under its folded key with its own spelling |
| TelegramPing.KnownNameScanned | src/telegram/ping.rs:33-36 | a name equal up to case to one already stored, or one that is filtered out, changes nothing |
| TelegramPing.FirstOfNewName | src/telegram/ping.rs:33-36 | an eligible entry whose name was not seen before is the first of its name |
| TelegramPing.IdsNext | src/telegram/ping.rs:28-31 | one more entry adds at most its own integer value to the ids |
| TelegramPing.NameKeysNext | src/telegram/ping.rs:33-36 | one more entry adds at most its own folded name to the name keys |
| TelegramPing.EntriesGoOneWay | src/telegram/ping.rs:27-38 | an entry that parses as an integer never yields a name; an unfiltered integer entry is in the ids; an unfiltered non-integer entry is in the names |
| TelegramPing.FilterIgnoresCase | src/telegram/ping.rs:33-34 | a name that differs from a `filter_out` key only in case is filtered out too |
| TelegramPing.ConvertCommands | src/telegram/ping.rs:107 | the bot's commands are converted one by one, keeping their number and order |
| TelegramPing.UserDescription | src/telegram/ping.rs:88-117 | on a lookup error the description is the error text and there are no commands; otherwise it is the `about` text (or "") followed by the bot's description and menu link, and commands are returned exactly when the bot info lists them |
| TelegramPing.ChatDescription | src/telegram/ping.rs:124-141 | a chat or channel is described by its `about` text, or by the error text, and never has commands |
| TelegramPing.GetDescription | src/telegram/ping.rs:72-143 | users and bots are described from the user lookup: its error text without commands, or the `about` text followed by the bot's description and menu link, with commands exactly when the bot info lists them; every other kind is described from its full chat; commands come only from a successful user lookup |
| TelegramPing.AboutOpensDescription | src/telegram/ping.rs:93-105 | a user's own `about` text always opens the description, and is all of it without bot info |
| TelegramPing.BotSuffixOrder | src/telegram/ping.rs:95-105 | the bot's description comes first after a blank line, then a blank line, and the menu link closes with ')' |
| TelegramPing.KindCode | src/telegram/ping.rs:174-178 | channels are stored as 'C', groups as 'G', users as 'U', each a signed byte |
| TelegramPing.KindCodeInjective | src/telegram/ping.rs:174-178 | different kinds are stored under different codes |
| TelegramPing.PeerName | src/telegram/ping.rs:188-191 | the name is the username, else the display name, else "channel#" and the id |
| TelegramPing.FallbackNameCarriesId | src/telegram/ping.rs:191 | the fallback name starts with "channel#" and what follows parses back to the id |
| TelegramPing.AccessedPeer | src/telegram/ping.rs:186-203 | users come back on the right with the looked-up name and every other kind on the left; the peer carries the id, the fallback name, the access hash (0 when missing) and app id 0 |
| WorkQueue.IndexOf | src/hackforums-inner/service.rs:16 | the position found holds the id with no earlier copy, and there is none exactly when the id is absent |
| WorkQueue.RemoveFirstSpec | src/hackforums-inner/service.rs:14-19 | removing an id present takes out exactly its first occurrence, keeping the order of the rest and one copy fewer in the multiset; an absent id leaves the list unchanged |
| WorkQueue.RotateLeftSpec | src/hackforums-inner/service.rs:25 | rotation keeps the length and the multiset of ids and moves the first k to the back |
| WorkQueue.IdList.constructor | src/hackforums-inner/service.rs:8 | the shared list starts empty |
| WorkQueue.IdList.Init | src/hackforums-inner/service.rs:10-12 | `init` replaces the whole list with the given one |
| WorkQueue.IdList.Remove | src/hackforums-inner/service.rs:14-19 | `remove` deletes the first occurrence of the id, if any, and nothing else |
| WorkQueue.IdList.Get | src/hackforums-inner/service.rs:21-31 | never more than 50 ids; with more than 50, the first 50 in order, and the list rotated left by 50; otherwise the whole list, unchanged; the multiset of ids is always kept |
| WorkQueue.IdList.Send | src/hackforums-inner/service.rs:40-60 | a failed insert returns its error text and leaves the list as it is; a successful one returns "" and removes the id |
| DateTemplate.Placed | src/util.rs:12-22 | the month goes to bytes 8-10; a one-digit day (comma at 5) goes to byte 6 with the template's '0' kept, a two-digit day to bytes 5-6; "YYYY hh:mm" goes to bytes 12-21; the "Sun, " prefix and ":00 GMT" suffix are kept |
| DateTemplate.FromU8 | src/util.rs:24-28 | `Char::from_u8` yields the character exactly for values below 128 |
| DateTemplate.CheckedPm | src/util.rs:23-30 | the checked "+12 hours" changes only the two hour bytes and keeps the buffer ASCII |
| DateTemplate.WrappingPm | src/hackforums/scrape.rs:35-42 | the forum scraper's "+12 hours" changes only the two hour bytes and keeps them bytes |
| DateTemplate.CheckedPmAddsTwelve | src/util.rs:23-30 | on hours 00 to 79 the carry gives two decimal digits worth exactly twelve more |
| DateTemplate.NoonBecomesHour24 | src/util.rs:23-30 | "12" PM is not special-cased and becomes hour "24" |
| DateTemplate.PmVersionsAgree | src/util.rs:23-30 | on decimal hour digits the forum scraper's byte arithmetic and the checked one give the same bytes |
| DateTemplate.TemplatesAreAscii | src/util.rs:4 | both templates are ASCII bytes |
| DateTemplate.UtilSimpleParse | src/util.rs:7-36 | input shorter than 19 bytes gives None; otherwise the buffer has the fields placed, with twelve hours added exactly when the byte after "hh:mm " is 'P' |
| DateTemplate.FillTemplate | src/util.rs:12-22 | copying into the buffer array places the fields as `Placed` says and consumes 7 or 8 bytes of day |
| DateTemplate.ForumBuffer | src/hackforums/scrape.rs:22-43 | the forum scraper's buffer is 29 bytes long |
| DateTemplate.ForumSimpleParse | src/hackforums/scrape.rs:22-43 | the forum scraper places the same fields into its own template and adds twelve hours exactly on 'P' |
| DateTemplate.WrappingAddTwelve | src/hackforums/scrape.rs:35-42 | the in-place hour update on the array equals the wrapping "+12 hours" |
| DateTemplate.VersionsAgree | src/util.rs:7-30 | on decimal hours below 80, both versions build the same bytes, PM carry included |
| DateTemplate.PlacedTemplatesAgree | src/util.rs:4 | the two templates differ only in bytes that the input overwrites |
| HackforumsScrape.ParseTid | src/hackforums/scrape.rs:97 | a thread id is read only from an `id` attribute that starts with "tid_" and continues with an i64 |
| HackforumsScrape.TidRoundTrip | src/hackforums/scrape.rs:97 | every i64 thread id is found again in the attribute "tid_<id>" |
| HackforumsScrape.ParseCount | src/hackforums/scrape.rs:98-111 | a count that is read fits an i64 |
| HackforumsScrape.CountRoundTrip | src/hackforums/scrape.rs:98-111 | a count printed without separators is read back as itself |
| HackforumsScrape.SeparatorIgnored | src/hackforums/scrape.rs:101-103 | a ',' between two parts of a count changes nothing: the cell is trimmed and every comma removed before the parse |
| HackforumsScrape.SeparatorDropped | src/hackforums/scrape.rs:101-102 | trimming then removing commas gives the same text with or without a ',' between two non-blank parts |
| HackforumsScrape.CommaRemoved | src/hackforums/scrape.rs:102 | removing commas from a text with one more ',' gives the same result |
| HackforumsScrape.TrimUnchanged | src/hackforums/scrape.rs:101 | a text without whitespace at either end is left as it is by the trim |
| HackforumsScrape.LastPost | src/hackforums/scrape.rs:112-120 | an element gives its `data-timestamp` seconds (a u64 that fits the clock); a text node gives the date parsed from the forum buffer; a text too short for `simple_parse` panics, and nothing else does |
| HackforumsScrape.ParseRow | src/hackforums/scrape.rs:86-129 | a thread is built only from a row with at least five cells and a subject; its title is the trimmed subject text, its tid from the subject's id, its replies and views from cells 2 and 3, its last post from cell 4; a panic comes only from the last-post cell |
| HackforumsScrape.RowSteps | src/hackforums/scrape.rs:84-86 | each row is judged by the closure, one verdict per row, in page order |
| HackforumsScrape.RowsIndependent | src/hackforums/scrape.rs:84-130 | a row that fails drops only itself: the threads of two runs of rows are the threads of each, joined in order, and the page panics exactly when some row does |
| HackforumsScrape.AllRowsKept | src/hackforums/scrape.rs:84-130 | when every row parses, the page holds exactly one thread per row, in row order |
| HackforumsScrape.Work | src/hackforums/scrape.rs:51-131 | a browser failure gives no threads; otherwise the threads are those the closure keeps from the selected rows, in page order |
| BlackhatworldScrape.Pa | src/blackhatworld/scrape.rs:29-31 | a count that is read fits an i64 |
| BlackhatworldScrape.PaPlain | src/blackhatworld/scrape.rs:29-31 | a plain count is read back as itself |
| BlackhatworldScrape.PaThousands | src/blackhatworld/scrape.rs:30 | "<n>K" reads as n × 1000, so "12K" is 12000 |
| BlackhatworldScrape.PaMillions | src/blackhatworld/scrape.rs:30 | "<n>M" reads as n × 1000000 |
| BlackhatworldScrape.ExpandK | src/blackhatworld/scrape.rs:30 | a trailing 'K' after digits expands to "000" |
| BlackhatworldScrape.ExpandM | src/blackhatworld/scrape.rs:30 | a trailing 'M' after digits expands to "000000" |
| BlackhatworldScrape.ParseScaled | src/blackhatworld/scrape.rs:30 | digits followed by k zeros read as the number times 10^k |
| BlackhatworldScrape.PaRejectsFraction | src/blackhatworld/scrape.rs:29-31 | a count with a '.' in it, such as "1.2K", is not read at all |
| BlackhatworldScrape.FirstIdMatch | src/blackhatworld/scrape.rs:75-78 | the match found is the leftmost position where "js-threadListItem-" is followed by a digit, and None means there is none |
| BlackhatworldScrape.DigitRun | src/blackhatworld/scrape.rs:75-79 | the captured run is the longest run of digits from its start |
| BlackhatworldScrape.CaptureId | src/blackhatworld/scrape.rs:75-79 | a capture exists exactly when the pattern occurs, and it is a non-empty run of digits |
| BlackhatworldScrape.ParseId | src/blackhatworld/scrape.rs:75-81 | an id comes only from a class attribute with a match, and is a non-negative i64 |
| BlackhatworldScrape.IdFound | src/blackhatworld/scrape.rs:75-81 | the id the forum writes as "js-threadListItem-<n>" among other classes is read back as n |
| BlackhatworldScrape.TimeIn | src/blackhatworld/scrape.rs:89-95 | a time is the `data-time` of the cell's first `time.u-dt`, read as u64 seconds that fit the clock |
| BlackhatworldScrape.ParseEntry | src/blackhatworld/scrape.rs:72-118 | an entry is never a panic: it is a post or it is dropped |
| BlackhatworldScrape.EntryFields | src/blackhatworld/scrape.rs:73-117 | a post comes from an entry with four cells and two `dd`s; its id, author, title, time, replies (first `dd`), views (second `dd`) and last reply are read from them |
| BlackhatworldScrape.ShortEntryDropped | src/blackhatworld/scrape.rs:73 | an entry with fewer than four element cells never becomes a post |
| BlackhatworldScrape.Posts | src/blackhatworld/scrape.rs:70-119 | a page has at most one post per entry |
| BlackhatworldScrape.EntriesIndependent | src/blackhatworld/scrape.rs:70-119 | a bad entry costs only itself: the posts of two runs of entries are the posts of each, joined in order, and a page never aborts |
| BlackhatworldScrape.ColumnsOf | src/blackhatworld/scrape.rs:131-137 | the seven column arrays each have one entry per post |
| BlackhatworldScrape.Unnest | src/blackhatworld/scrape.rs:123 | reading the columns side by side gives one row per id |
| BlackhatworldScrape.ColumnsRoundTrip | src/blackhatworld/scrape.rs:123-137 | unnesting the columns gives back every post, field for field, in order |
| BlackhatworldScrape.Work | src/blackhatworld/scrape.rs:34-148 | the database is written exactly when the page was found and holds posts; the upsert carries the section and aligned columns that unnest to the page's posts |
| Accsmarket.AsI64 | src/accsmarket/scrape.rs:70 | `hash as i64` is the i64 with the same 64 bits: the hash itself, or the hash − 2^64 |
| Accsmarket.AsI64Injective | src/accsmarket/scrape.rs:70 | the cast loses nothing: different hashes stay different ids |
| Accsmarket.Quantity | src/accsmarket/scrape.rs:54-57 | a quantity fits an i64 |
| Accsmarket.QuantityRoundTrip | src/accsmarket/scrape.rs:54-57 | a written quantity is read back as itself; a missing or unreadable one counts as 0 |
| Accsmarket.CommaReadsAsPoint | src/accsmarket/scrape.rs:58-61 | a price written with a decimal comma reads as the same price written with a point |
| Accsmarket.EqualDescriptionsEqualIds | src/accsmarket/scrape.rs:62-70 | rows with the same description carry the same id, and rows with different ids differ in description |
| Accsmarket.Archive | src/accsmarket/scrape.rs:50-71 | exactly one archived row per element child of the root, in document order, each with that child's fields |
| Accsmarket.ArchiveRow | src/accsmarket/scrape.rs:54-70 | a child's row has its description, the hash of the description as id, its quantity and its price |
| Accsmarket.Unnest | src/accsmarket/scrape.rs:75 | reading the array parameters side by side gives one row per id |
| Accsmarket.InsertOf | src/accsmarket/scrape.rs:79-88 | every array parameter has the archive's length |
| Accsmarket.InsertRoundTrip | src/accsmarket/scrape.rs:75-88 | unnesting the array parameters gives back the archive, row for row |
| Accsmarket.Work | src/accsmarket/scrape.rs:15-98 | a transport error or a missing or malformed Date header means no database work; otherwise the insert happens exactly when the answer's root has element children, under the category id and the response date, with one row per child in document order |
| Accsmarket.TitleOf | src/accsmarket/main.rs:37-39 | a title's id is its `data-id` as an i64 (0 when missing or unreadable) and its description the trimmed text of the `h2` |
| Accsmarket.EntriesOf | src/accsmarket/main.rs:34-46 | each child is classified by its class, one entry per child, in order |
| Accsmarket.OneJobPerBlock | src/accsmarket/main.rs:42-44 | exactly one job per "socs" child |
| Accsmarket.JobsOnlyGrow | src/accsmarket/main.rs:43 | jobs are only ever appended: every earlier list of jobs is a prefix of every later one |
| Accsmarket.JobHasLatestId | src/accsmarket/main.rs:31-41 | the current id is 0 or the id of a title met before |
| Accsmarket.DescriptionUsedOnce | src/accsmarket/main.rs:39-43 | `mem::take` hands each title's description to at most one job: jobs with a non-empty description, plus the one still held, never outnumber the titles |
| Accsmarket.CollectJobs | src/accsmarket/main.rs:31-47 | the loop's jobs are exactly those of the walk over the container's children, starting from id 0 and an empty description |
| Accsmarket.Visit | src/accsmarket/main.rs:35-46 | a title with an `h2` sets the id and description; a "socs" child adds a job with them and clears the description; any other child changes nothing |
| Accsmarket.Crawl | src/accsmarket/main.rs:20-56 | without a `.soc-bl` the crawl fails before any job; otherwise it runs the walk's jobs in document order, one per block |
| EzkifyItem.DescribedSnoc | src/ezkify/main.rs:133-139 | one more child adds exactly its own piece to the description |
| EzkifyItem.DescribedAppend | src/ezkify/main.rs:133-139 | the description of two runs of children is the two descriptions joined |
| EzkifyItem.BreakIsNewline | src/ezkify/main.rs:136 | a `br` child becomes exactly one newline between what surrounds it |
| EzkifyItem.OthersIgnored | src/ezkify/main.rs:137 | any other element child, with all the text inside it, and any comment add nothing |
| EzkifyItem.TextKept | src/ezkify/main.rs:135 | a text child adds its text unchanged and untrimmed |
| EzkifyItem.Describe | src/ezkify/main.rs:131-143 | without a `.d-none` the description is ""; otherwise the loop's string is the texts and newlines of its children, in order |
| EzkifyItem.AttrI64 | src/ezkify/main.rs:94-96 | an attribute is read as an i64 exactly when it is present and parses |
| EzkifyItem.Rate | src/ezkify/main.rs:102-107 | a rate is read only from a trimmed text starting with '$', and then it is the float after the '$' |
| EzkifyItem.Order | src/ezkify/main.rs:112-116 | an order bound is the cell's text with all whitespace removed, read as an i64 |
| EzkifyItem.WhitespaceIgnored | src/ezkify/main.rs:114 | whitespace inside a number, such as "10 000", does not change what it reads as |
| EzkifyItem.AllWhitespaceRemoved | src/ezkify/main.rs:114 | a run of whitespace is removed entirely |
| EzkifyItem.NoWhitespaceKept | src/ezkify/main.rs:114 | a text without whitespace is left as it is |
| EzkifyItem.FormatIntNoWhitespace | src/ezkify/main.rs:112-116 | a printed integer holds no whitespace |
| EzkifyItem.OrderRoundTrip | src/ezkify/main.rs:112-129 | a cell whose text is a printed i64 with whitespace around it reads back as that number |
| EzkifyMain.CategoryId | src/ezkify/main.rs:82-85 | a category id fits an i64, and is -1 when the attribute is missing |
| EzkifyMain.CategoryIdRoundTrip | src/ezkify/main.rs:82-85 | a category id written out reads back as itself; one that is not an i64 gives -1 |
| EzkifyMain.RowFields | src/ezkify/main.rs:89-143 | an item row aborts the run exactly when it has fewer than six cells |
| EzkifyMain.ItemFields | src/ezkify/main.rs:94-143 | a row that reads takes its id from cell 0, its service from cell 1, its rate from cell 2, its bounds from cells 3 and 4 and its description from the `.d-none` of cell 5, or "" without one |
| EzkifyMain.BadFieldSkips | src/ezkify/main.rs:94-129 | a six-cell row whose id, rate, minimum or maximum does not read is skipped, not fatal |
| EzkifyMain.KindsOf | src/ezkify/main.rs:80-81 | each row is classified on its own, one kind per row, in order |
| EzkifyMain.RowsOutcome | src/ezkify/main.rs:78-158 | the loop yields the writes of the scan from cid 0, or the "child error" once a short row aborts it |
| EzkifyMain.ScanCid | src/ezkify/main.rs:78-85 | the loop's cid is always that of the latest category row, and 0 before the first |
| EzkifyMain.ItemUnderLatestCategory | src/ezkify/main.rs:145-156 | a row that reads appends one item write with the cid of the latest category row (0 before any) and the response date |
| EzkifyMain.SkipWritesNothing | src/ezkify/main.rs:99-128 | a skipped row leaves the writes and the cid as they were |
| EzkifyMain.AbortIsFinal | src/ezkify/main.rs:92 | once a row aborts, no later row matters and the run fails |
| EzkifyMain.ShortRowAborts | src/ezkify/main.rs:89-92 | an item row with fewer than six cells anywhere makes the whole run fail with the child error |
| EzkifyMain.PanicAborts | src/ezkify/main.rs:89-92 | a row that aborts anywhere aborts the loop |
| EzkifyMain.ItemsShareDate | src/ezkify/main.rs:60-156 | every item the run stores carries the one Date header of the response |
| EzkifyMain.ReadItemRow | src/ezkify/main.rs:89-143 | the item branch of the loop body, with its description loop, yields exactly the row's fields, skip or abort |
| EzkifyMain.VisitRow | src/ezkify/main.rs:81-157 | one row of the loop takes the scan one step: a category row sets cid and writes the category; an item row writes, skips or aborts |
| EzkifyMain.ScanOneMore | src/ezkify/main.rs:80 | the scan of one more row is the step from the scan so far, and an abort is final |
| EzkifyMain.VisitNext | src/ezkify/main.rs:80-158 | row i of the loop leaves the locals where the scan over the first i + 1 rows is |
| EzkifyMain.ScrapeRows | src/ezkify/main.rs:78-158 | the loop over the rows of `#service-tbody` yields the writes, or the child error |
| EzkifyMain.Run | src/ezkify/main.rs:58-161 | no Date header gives "no date"; a header that is not visible ASCII or not an HTTP date is an error; without `#service-tbody` the run fails with "element not found"; otherwise it yields what the row loop does |
| EzkifyParse.ReadItem | src/ezkify/parse_item/ezkify.rs:15-69 | the first field that does not read names the error, in the order id, rate, minimum, maximum; when all read, the item holds them with the service text, the description and the given time and cid |
| EzkifyParse.EzkifyItemOf | src/ezkify/parse_item/ezkify.rs:7-70 | fewer than six cells is the child error, and an item is never reported empty |
| EzkifyParse.EzkifyAgreesWithLoop | src/ezkify/parse_item/ezkify.rs:7-70 | the parser fails on the child error exactly where the front-end loop aborts, fails on a field exactly where the loop skips, and otherwise builds the item the loop stores |
| EzkifyParse.ParseEzkify | src/ezkify/parse_item/ezkify.rs:7-70 | the parser with its description loop returns the item or error described above |
| EzkifyParse.ReadFieldsThenDescribe | src/ezkify/parse_item/ezkify.rs:15-69 | the id check, the fields and the description loop give exactly the shared field chain's result |
| EzkifyParse.SmmrapidItemOf | src/ezkify/parse_item/smmrapid.rs:7-70 | an item without children is the empty-item error; fewer than five cells under its first child is the child error; an item that reads has the item's own `data-service-id` and the description of the modal's first `.content` |
| EzkifyParse.ParseSmmrapid | src/ezkify/parse_item/smmrapid.rs:7-70 | the parser with its description loop returns the item or error described above |
| EzkifyParse.ReadItemCells | src/ezkify/parse_item/smmrapid.rs:22-47 | the shared field chain looks at cells 1 to 4 only |
| EzkifyParse.SitesReadAlike | src/ezkify/parse_item/smmrapid.rs:10-69 | given cells that agree on cells 1 to 4, the same id and the same description children, the two parsers return the same item or fail on the same field |
| BhwWorker.BuildProxy | src/blackhatworld-worker/worker.rs:21-31 | no proxy without PROXY_HOST or when the URL is rejected; the proxy is for http://host:client-port; basic authentication is added exactly when both username and password are set, and carries them |
| BhwWorker.ProxyUrlNamesPort | src/blackhatworld-worker/worker.rs:22 | the proxy URL starts with "http://" and ends with the worker's own port, which reads back as that u16 |
| BhwWorker.SimpleCheck | src/blackhatworld-worker/worker.rs:54-58 | a page passes only when "BlackHatWorld</title>" occurs in it |
| BhwWorker.OccursInPrefix | src/blackhatworld-worker/worker.rs:57 | a pattern occurs in the prefix before i exactly where it occurs wholly before i in the text |
| BhwWorker.SimpleCheckSpec | src/blackhatworld-worker/worker.rs:54-58 | the check holds exactly when the first "BlackHatWorld</title>" has a whole "<title>" before it |
| BhwWorker.MarkerAloneFails | src/blackhatworld-worker/worker.rs:54-58 | a page that is only the marker fails the check, so it is not submitted |
| BhwWorker.Ids | src/blackhatworld-worker/worker.rs:95 | the log holds one thread id per page visited, in order |
| BhwWorker.ReceivedFailure | src/blackhatworld-worker/worker.rs:84-89 | a failed fetch of work adds nothing to the ids received |
| BhwWorker.ReceivedSuccess | src/blackhatworld-worker/worker.rs:84-85 | a successful fetch of work appends its ids to those received |
| BhwWorker.RetryUntilOk | src/blackhatworld-worker/worker.rs:83-126 | the loop consumes replies until the first success, every reply skipped before it a failure; it returns that success and the next position, or None when the trace runs out |
| BhwWorker.VisitThread | src/blackhatworld-worker/worker.rs:95-139 | a thread's log entry keeps both rules: only a fetched page that passes the check is submitted, retried only on transport errors; the delay is 2400-2999 ms after a submission and 4000 ms otherwise; it yields no entry exactly when a passing page meets only failed submit replies until the trace ends, or no delay draw is left, and then no draw was taken; a page it does not submit consumes no submit reply and no draw, and a submitted one consumes its failed replies, one success and one draw, which is its delay |
| BhwWorker.Extend | src/blackhatworld-worker/worker.rs:95-140 | appending the entry of the next thread keeps the log fitting the trace and its ids the list so far |
| BhwWorker.IdsExtend | src/blackhatworld-worker/worker.rs:95 | the ids of the extended log are those so far plus the next of the list |
| BhwWorker.VisitBatch | src/blackhatworld-worker/worker.rs:95-140 | the threads of a work list are visited in list order, each entry fitting its page reply and extending the log; the ids added are the list's first ones, all of them exactly when the batch completes; every entry read its submit replies and draw where the ones before left off, and the draws used are the submitted entries; an incomplete batch stopped because the page replies ran out after a fully followed thread, or because the next page passes the check and no submit reply from that point on succeeds or no draw is left |
| BhwWorker.Run | src/blackhatworld-worker/worker.rs:60-142 | every page keeps the submit and delay rules and entry k holds the k-th page reply; every submitted entry's failed replies, success and delay draw are the next ones of the trace, so the draws consumed are the submitted entries and the submit replies consumed are their retries plus one; the worker ends exactly at the first empty work list and has then visited exactly the ids received before it, in order; otherwise either every work reply was read and every id received visited, or it stopped inside a received list, after the ids of the lists before it, because the page replies ran out or the next passing page found no successful submit reply or no draw |
| BhwWorker.VisitNext | src/blackhatworld-worker/worker.rs:95-139 | the next thread of a list either extends the log with an entry that fits its page and reads its submit replies and draw where the log left off, or there is none because the page replies ran out or that page is stuck on the submit replies or the draws |
| BhwWorker.FollowList | src/blackhatworld-worker/worker.rs:95-140 | following one received list either visits all of its ids, so the log holds every id received so far, or stops inside that list with the log between the ids received before it and those with it |
| BhwWorker.BatchCut | src/blackhatworld-worker/worker.rs:95-140 | a list cut short leaves the log after every id of the earlier lists and before the end of this one, a prefix of the ids received |
| BhwWorker.ConsumesSnoc | src/blackhatworld-worker/worker.rs:111-128 | an entry that reads its submit replies and draw where the log left off extends a consistent log, and moves the counts by its retries plus one and by one draw when it was submitted |
| BhwWorker.EmptyEnds | src/blackhatworld-worker/worker.rs:83-94 | an empty list received after non-empty lists and failures is the first empty list |
| BhwWorker.NoEmptyBefore | src/blackhatworld-worker/worker.rs:83-94 | a reply that is not an empty list, after non-empty lists and failures, leaves no empty list before it |
| BhwWorker.NextWork | src/blackhatworld-worker/worker.rs:83-94 | one retried fetch of work moves past the failed replies; it yields the list of the first successful reply, and the ids received grow by exactly that list, or nothing when the replies run out |
| BhwWorker.ReceivedAfterRetry | src/blackhatworld-worker/worker.rs:83-94 | failed fetches of work and then a list grow what was received by that list, and by nothing when it is empty |
| BhwWorker.IdsSnoc | src/blackhatworld-worker/worker.rs:95 | one more entry adds its id at the end |
| BhwWorker.ReceivedSkips | src/blackhatworld-worker/worker.rs:84-89 | a run of failed fetches of work adds nothing to what was received |
| BhwMain.ServerPort | src/blackhatworld-worker/main.rs:24-25 | the server port is the one given, or 18322 by default |
| BhwMain.Workers | src/blackhatworld-worker/main.rs:117-125 | there are never more workers than config entries |
| BhwMain.WorkersAreUsable | src/blackhatworld-worker/main.rs:117-125 | every worker has the shared server port, a u16 client port, and a non-empty cookie and user agent |
| BhwMain.WorkersExactly | src/blackhatworld-worker/main.rs:117-125 | every usable entry gets its worker, and every worker comes from a usable entry |
| BhwMain.UnusableStartsNothing | src/blackhatworld-worker/main.rs:118-119 | an entry with an empty header or a key that is not a port starts no worker, wherever it is |
| BhwMain.WorkersAppend | src/blackhatworld-worker/main.rs:117 | entries are filtered one by one: the workers of two runs of entries are those of each, joined |
| BhwMain.ChooseUserAgent | src/blackhatworld-worker/main.rs:74-80 | an empty list gives the "no UA available" error, and otherwise the agent is one of the list |
| BhwMain.EveryAgentCanBeChosen | src/blackhatworld-worker/main.rs:77-78 | every entry of a non-empty list can be chosen |
| BhwMain.Met | src/blackhatworld-worker/main.rs:96-107 | the pairs met are exactly those of the sequence |
| BhwMain.MetSnoc | src/blackhatworld-worker/main.rs:98 | one more pair adds itself to the pairs met |
| BhwMain.Candidates.constructor | src/blackhatworld-worker/main.rs:96 | the set starts empty, with nothing reported |
| BhwMain.Candidates.Receive | src/blackhatworld-worker/main.rs:99-106 | a pair not met before is reported and remembered; a repeat does nothing; every pair met stays reported exactly once |
| BhwMain.Candidates.ReceiveAll | src/blackhatworld-worker/main.rs:98-107 | after the loop the set holds every pair received, and the report is the new pairs in order of first arrival |
| BhwMain.FirstSeenExactly | src/blackhatworld-worker/main.rs:96-107 | what is reported is every new pair received, each once, and nothing else |
| BhwBrowser.Sent | src/blackhatworld-worker/browser.rs:24-53 | a pair is sent only for a request event whose headers are an object |
| BhwBrowser.CookieIsNotUserAgent | src/blackhatworld-worker/browser.rs:40-43 | no header name matches both "cookie" and "user-agent", so the `else if` drops nothing |
| BhwBrowser.ScanSplits | src/blackhatworld-worker/browser.rs:36-46 | the loop tracks the two headers independently, each as the last string under its name |
| BhwBrowser.LastOfSpec | src/blackhatworld-worker/browser.rs:38-45 | the last naming entry is None exactly when no entry names the header, and otherwise the value of the last one that does |
| BhwBrowser.ScanFindsLast | src/blackhatworld-worker/browser.rs:36-46 | after the loop each header is the string of the last entry that names it in any ASCII case, and None when there is none; non-string values are ignored |
| BhwBrowser.SentSpec | src/blackhatworld-worker/browser.rs:24-53 | a pair is sent exactly for a request or extra-info event whose headers are an object holding both headers as strings, and it holds the last such value of each, unchanged |
| BhwBrowser.OnEvent | src/blackhatworld-worker/browser.rs:24-53 | the method with its loop sends exactly what `Sent` says |
| ApplyPatch.RStrip | apply_patch.py:40 | the result is a prefix of the line, everything it drops is whitespace, and it does not end in whitespace |
| ApplyPatch.WordEnd | apply_patch.py:38 | the index found ends a run of non-whitespace characters: it stops at the first whitespace or at the end of the line |
| ApplyPatch.Words | apply_patch.py:38 | whitespace splitting yields only non-empty words that contain no whitespace |
| ApplyPatch.WithoutSpacesOfWord | apply_patch.py:38 | removing whitespace from a word that has none leaves it unchanged |
| ApplyPatch.WithoutSpacesAppend | apply_patch.py:38 | removing whitespace distributes over concatenation |
| ApplyPatch.WordsKeepEverythingElse | apply_patch.py:38 | joining the words gives back the line with only its whitespace removed, so splitting loses no other character |
| ApplyPatch.SplitDots | apply_patch.py:38 | unpacking into two hashes raises ValueError unless the word splits into exactly two parts around "..", and then the word is the first part, "..", the second part, with the split made at the first ".." |
| ApplyPatch.SplitDotsRoundTrip | apply_patch.py:38 | two dot-free hashes joined by ".." split back into the same pair |
| ApplyPatch.HeaderPath | apply_patch.py:40-42 | the path of a "--- "/"+++ " header is the line from its seventh character on, with trailing whitespace stripped |
| ApplyPatch.HeaderStep | apply_patch.py:36-43 | one header line adds exactly one hunk when it starts with "+++ " and none otherwise, and never drops an earlier hunk |
| ApplyPatch.OneHunkPerTargetLine | apply_patch.py:41-43 | a patch that reads without error yields one hunk per "+++ " line |
| ApplyPatch.TargetNeedsSourceAndIndex | apply_patch.py:39-43 | a "+++ " line before any "--- " line is an error, since the source path it records is still unbound |
| ApplyPatch.PatchHunks | apply_patch.py:35-43 | reading the patch fails exactly when the header scan fails, with the same error, and otherwise yields one hunk per "+++ " line |
| ApplyPatch.ReadHunks | apply_patch.py:35-43 | the line-by-line reading loop computes the header scan over the whole patch |
| ApplyPatch.ReadHeaderLine | apply_patch.py:37-43 | the body of the reading loop performs one header step |
| ApplyPatch.ReadOneMore | apply_patch.py:36-43 | scanning one more line is one header step, and an error at that line is the error of the whole patch |
| ApplyPatch.ErrorsPersist | apply_patch.py:36-43 | once a header line raises, the scan of the whole patch ends with that error |
| ApplyPatch.GitBlob | apply_patch.py:52-56 | the hashed text is a git blob: it starts with the "blob " header and ends with the file content |
| ApplyPatch.CheckHunk | apply_patch.py:46-57 | a missing file matches exactly when the abbreviated hash is all zeros; a present file matches exactly when the SHA-1 of its blob starts with the abbreviated hash |
| ApplyPatch.CountAll | apply_patch.py:51 | counting '0's gives the length exactly when every character is '0' |
| ApplyPatch.EmptyAbbreviationMatches | apply_patch.py:46-57 | an empty abbreviated hash matches whether the file exists or not |
| ApplyPatch.Verdict | apply_patch.py:59-79 | the state machine over the hunks never produces Discard |
| ApplyPatch.VerdictSnoc | apply_patch.py:59-79 | all sources (targets) of one more hunk match exactly when those of the earlier hunks do and this hunk's does |
| ApplyPatch.FailureIsFinal | apply_patch.py:70-79 | once a source (target) hash mismatches, the whole patch is no longer all-source (all-target) |
| ApplyPatch.ScanHunks | apply_patch.py:59-79 | the loop with its early breaks computes the verdict over all hunks |
| ApplyPatch.PatchInner | apply_patch.py:30-88 | header errors propagate; otherwise the patch is Patched exactly when every target hash matches, Clean exactly when every source matches and not every target, and Broken or (for the standard library) Discard when neither holds; the tree is removed exactly when the result is Broken; the result is `patch_inner`'s outcome as a function of the patch lines and the tree |
| ApplyPatch.InnerStatusMeaning | apply_patch.py:30-88 | the outcome of `patch_inner` is the headers' error exactly when they raise, and otherwise Patched exactly when every target matches, Clean exactly when every source matches and not every target, Broken outside and Discard inside the standard library when neither holds |
| ApplyPatch.RSplitDash | apply_patch.py:103 | splitting at the last '-' fails exactly when there is no '-', and otherwise gives back the identifier with a dash-free version |
| ApplyPatch.FirstFit | apply_patch.py:104-105 | the checkout chosen fits (its name starts with the crate name and it has the version), none before it fits, and there is none exactly when no checkout fits |
| ApplyPatch.GitLocationMeaning | apply_patch.py:102-110 | an identifier without '-' raises ValueError; otherwise the location is the version directory of the first fitting checkout, and FileNotFoundError is raised exactly when none fits |
| ApplyPatch.PatchGit | apply_patch.py:102-110 | an identifier without '-' raises ValueError; otherwise the first checkout whose name starts with the crate name and that has the version directory is chosen, and FileNotFoundError is raised exactly when none fits; the search loop computes that location |
| ApplyPatch.Located | apply_patch.py:180-185 | core/alloc/std go to the standard library, other crates present in the registry go to crates.io, and every other name is searched among the git checkouts; only the first names give a standard-library location |
| ApplyPatch.Locate | apply_patch.py:180-185 | core/alloc/std go to the standard library and other crates present in the registry to crates.io; any other name raises ValueError without a '-', is otherwise placed in the first checkout that fits, and raises FileNotFoundError exactly when none fits |
| ApplyPatch.PatchNames | apply_patch.py:175-179 | there are no more patch names than directory entries |
| ApplyPatch.PatchFiles | apply_patch.py:175-179 | the `.patch` files of the directory, in order, are as many as the patch names, each ends in ".patch" and gives its patch name without that suffix |
| ApplyPatch.ResponseOfMeaning | apply_patch.py:176-187 | a `.patch` file raises exactly when its name cannot be located or its headers raise, with that exception; otherwise its response names the package, where it was located and `patch_inner`'s verdict there, and the status fits the location |
| ApplyPatch.ApplyOne | apply_patch.py:176-187 | files not ending in ".patch" are skipped; otherwise the entry raises exactly when the dispatch or the header scan raises, and else the response names the file without its ".patch" suffix, holds the dispatched location and `patch_inner`'s outcome on that location's tree, and its status fits the location |
| ApplyPatch.ApplyAll | apply_patch.py:173-189 | the loop raises exactly when the directory's responses raise, with the first exception, and otherwise returns those responses: one per ".patch" file, in directory order, each with a fitting status; a second fetch is needed exactly when some response is Broken |
| ApplyPatch.ApplyNext | apply_patch.py:175-189 | one turn of the loop extends the responses of the entries so far by the next entry's, or fails exactly as the directory so far fails, keeping `need_fetch` equal to whether some response is Broken |
| ApplyPatch.CollectMeaning | apply_patch.py:175-189 | collecting outcomes succeeds exactly when every outcome does, and then lists their values in order; otherwise it fails with the exception of the first failing outcome |
| ApplyPatch.DirectoryResponsesMeaning | apply_patch.py:175-189 | the responses of the first n entries are the collected outcomes of their `.patch` files |
| ApplyPatch.DirectoryResponsesNext | apply_patch.py:175-189 | one more directory entry leaves the result unchanged unless it is a `.patch` file, whose outcome is then added after the earlier ones unless an earlier exception stands |
| ApplyPatch.DirectoryFailed | apply_patch.py:175-189 | once the entries so far raise, the whole loop raises that exception |
| ApplyPatch.DirectoryMeaning | apply_patch.py:175-189 | the loop succeeds exactly when every `.patch` file's response does, and then holds them in directory order; otherwise it raises the exception of the first `.patch` file that raises, every earlier one having succeeded |
| ApplyPatch.DirectoryFits | apply_patch.py:175-189 | the responses of the whole directory carry its patch names in order and statuses that fit their locations |
| ApplyPatch.ActionFor | apply_patch.py:194-202 | Patched prints a tick, Discard prints the warning, and Clean or Broken runs git apply in the patched directory |
| Db.DecodeJsonb | src/db.rs:96-102 | decoding succeeds exactly when the value starts with the version byte 1, and then yields the rest; otherwise the error is "database JSONB error" |
| Db.EncodeJsonb | src/db.rs:97 | an encoded document is the version byte 1 followed by the document |
| Db.JsonbRoundTrip | src/db.rs:96-102 | decoding an encoded document gives it back, and re-encoding a decoded value gives the raw bytes back |
| Db.LowerBound | src/db.rs:128-131 | the lower bound is 0 exactly for oidvector and int2vector and 1 for every other array type |
| Db.Dimension | src/db.rs:133-136 | the array dimension exists exactly when the length fits an i32, and then carries the length and the lower bound of the type |
| Db.BytesMut.Extend | src/db.rs:138-144 | writing appends the bytes to the output buffer |
| Db.ToSql | src/db.rs:119-145 | a non-array type panics; a length over i32::MAX fails without writing; a successful write appends exactly the array encoding of the dimension and member type, and any other outcome leaves the buffer unchanged |
| Db.ConnectionSlot.InsertConnection | src/db.rs:70-78 | a held connection is reused; otherwise a pooled connection is taken and kept on success, and a pool error leaves the slot empty |
| Db.ReuseAfterInsert | src/db.rs:70-78 | after one successful insertion every later one returns the same connection |
| Db.TransferType | src/db.rs:81-89 | a column fetch error passes through unchanged; otherwise the result is the converted value, and a failed conversion becomes a FromSql error for that column index |
| Db.I64ToI32 | src/db.rs:87 | narrowing succeeds exactly for values in the i32 range and keeps the value |
| Db.TransferNarrowing | src/db.rs:81-89 | reading an i64 column as i32 keeps in-range values and reports out-of-range ones as a FromSql error of that column |

## Left out

- Network, browser and Telegram I/O are not modelled. This covers login, the network parts of `access_channel` and `access_invite`, channel listing, `src/telegram/telegram/client.rs`, the puppeteer scripts and `work.mjs`. Their results enter the model as parameters: traces of stream events, fetched pages and outcomes.
- HTTP servers, command-line parsing and the `main` functions are modelled only where they hold logic listed in the table above.
- Concurrency is not modelled. Concurrent pings, `join_all` and the concurrent sleep-and-write in the Telegram loop become sequential steps in program order.
- Sleeps and delays are recorded as values. No time passes.
- Floating-point parsing (`parse::<f64>`) is a function parameter. Only the text handed to it is modelled.
- `httpdate` parsing, `DefaultHasher`, SHA-1, `postgres_protocol::types::array_to_sql` and the proxy list are function parameters. The model states what is passed to them and how their results are used.
- SQL texts, row counts and database error details are not modelled. A database write is a success flag. In ezkify, an insert error ending the run through `?` is not modelled. The database stream that feeds `extract_content` is not modelled: the extractor works on the message texts it is given.
- `HashMap` and JSON object iteration order is taken to be the order of a given sequence.
- Case folding (`UniCase`, `eq_ignore_ascii_case`) is ASCII-only. The regex class `\d` is taken as ASCII digits.
- Text is modelled as sequences of characters. Where the source indexes or counts bytes, each character stands for one byte. Whitespace is matched per Unicode code point, as `char::is_whitespace` does. UTF-8 decoding of multi-byte characters is not modelled.
- Infinite retry loops are modelled over finite traces. What happens after the trace ends is not modelled.
- Log messages, terminal colours and the text of error messages are not modelled, except where the text is the program's result.
- In `apply_patch.py`, `main` is modelled only for patch discovery, dispatch, `need_fetch` and the per-status actions. Argument parsing, downloading the standard-library patches, toolchain discovery and running `cargo`/`git` are not modelled; the `git apply` call is represented as an action value.
- `src/lib.rs` (the shared `Item` record) and `src/scrape.rs` (the user-agent list) are not part of this model.
- DateTemplate.UtilSimpleParse: stops at the filled template and does not model the HTTP-date parse that follows it. Its precondition requires an input of 19 or more bytes to be long enough for the day branch; a shorter-than-needed input there makes the source index out of bounds and panic, and that panic is not modelled.
- DateTemplate.ForumSimpleParse: requires the input to be long enough instead of modelling the panic of the unguarded indexing.
- DateTemplate.WrappingPm: models the byte wrap-around of a release build, not the overflow panic of a debug build.
- TelegramIngest.FetchContent: when the trace ends before the loop does, it states only how far the trace was consumed, not how the loop would continue.
- Db.ToSql: when the element encoding fails, the buffer is left unchanged; bytes that `array_to_sql` may already have written before failing are not modelled.
- Accsmarket.JobHasLatestId: states only that a job's id is 0 or the id of some earlier title, not which title.
- BhwWorker.Run: runs the infinite work loop over a finite trace of fetched lists and states nothing about later rounds.
