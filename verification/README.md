# Room chat relay: a Dafny model

This project models the core of a small room-based chat relay. A Node.js server (`server.js`)
keeps two in-memory maps:
- `rooms`: each room code maps to its member sockets and the current holder of a joke
  special status;
- `clients`: each client id maps to its socket, display name, saved name, room and pending
  revert timer.

The server handles these frames: `join-room`, the five content frames, `retardioo` (the grant)
and `leave-room`. It also handles the revert timer firing and the socket `close` event.

The browser client (`public/script.js`) keeps a reaction map per message and renders reactions
as a summary line. It builds reply-quote previews and numbers its own messages. It also copies a
message's text.

The model contains:

- **Server.** The server is a pure step function, `Coordinator.Step`. It takes a registry
  (`Registry.Server`) and an event, and returns the next registry and the ordered deliveries,
  as `(socket, envelope)` pairs.
  - Randomness is passed in as explicit draws: `Names.NameDraw` for `generateUsername`, and a
    pick function for the Fisher–Yates shuffle.
  - A timer firing is an event of its own.
  - A socket's `readyState` is part of the registry, so `broadcast`'s OPEN test and
    `ws.send`'s silent drop on closed sockets are modelled.
- **Registry invariant.** `Registry.Valid` states that rooms, records and timers agree, that
  no closed socket lingers in a room, and that no record is filed under the empty id.
  `Invariant.StepPreservesValid` proves that every step keeps it, for events that meet
  `Invariant.Cooperative`:
  - a join carries a non-empty id that no record holds, on a socket that has not joined;
  - a leave carries the sender's own id.

  The browser's leave frames always meet this, since they carry no id. Its joins meet it
  except in one case. The page's id is fixed for its lifetime (public/script.js:4) and sent
  again from every new socket (public/script.js:57). A rejoin that reaches the server before
  the old socket's close breaks the condition, and `Properties.RejoinBeforeClose` shows that
  the invariant then fails.
- **Holder guard.** `Step` runs the grant with the holder test as written (JavaScript
  truthiness). In a valid registry no holder has the empty id, so the test as written and the
  corrected test agree (`Invariant.GuardsAgree`). The registry that tells them apart is
  outside `Valid`; see Findings.
- **Browser client.** `Reactions`, `Preview`, `MessageIds` and `Copy` model the pure logic of
  the client, separated from the DOM.

Module layout:
- `js.dfy`: JavaScript truthiness, decimal `toString`, `padStart`, `split`/`join` and `trim`.
- `names.dfy`, `shuffle.dfy`, `protocol.dfy`, `registry.dfy`: the server's helpers, frames and
  state.
- `coordinator.dfy`: the handlers.
- `invariant.dfy`: `Valid` is preserved by every step.
- `properties.dfy`: per-handler properties.
- `findings.dfy`: the holder-guard discrepancy.
- `reactions.dfy`, `preview.dfy`, `ids.dfy`, `copy.dfy`: the client.

Where the written description of the system and the code disagree, the model follows the code:

- `join-room` overwrites any record already held under the id. It does not remove the socket
  from a room it joined earlier (server.js:83-89). The invariant is proved for joins with a
  fresh id on a socket that has not joined; `Step` itself models the overwrite as written.
- The browser's leave frame carries no `clientId` (public/script.js:31). The server's
  `leave-room` branch therefore finds no record and does nothing (`Properties.AnonymousLeaveIsQuiet`).
  The real cleanup happens on `close`.
- A reply's quoted reference carries the substituted content, not a truncated preview
  (public/script.js:339-344). Each receiver cuts it when rendering.
- Message ids are not unique over a page session: leaving resets the counter while the client
  id stays the same (see Findings).

## Model

| member | source | states |
|---|---|---|
| Names.GenerateUsername | server.js:20-25 | a generated name is letters and digits only, and is never the special name |
| Names.Suffix | server.js:23 | the padded suffix is exactly four digits that spell the drawn number, leading zeros included |
| Names.ParseGenerated | server.js:20-25 | a generated name reads back as the adjective, noun and number that produced it |
| Names.GeneratedInjective | server.js:20-25 | distinct draws give distinct names |
| Shuffle.ShuffleArray | server.js:28-35 | the shuffle returns a permutation of its input (same length, same multiset) |
| Shuffle.AnyElementCanLead | server.js:28-35 | for every position there is a draw that puts that element first |
| Registry.Broadcast | server.js:38-47 | a delivery goes out exactly to each member of an existing room that is OPEN and is not the excluded id; a falsy exclude excludes nobody; a missing room sends nothing; no socket gets two copies |
| Registry.Remove | server.js:236 | `Set.delete` keeps exactly the other members, without repeats, and changes nothing when the socket is not a member |
| Registry.RemoveKeepsOrder | server.js:236 | deleting a member keeps the members before it and after it in their insertion order, with only the deleted one gone |
| Registry.NamesOfAppend | server.js:89-96 | a socket added to a room puts its record's name at the end of the user list, after the names already there |
| Registry.NamesOfRemove | server.js:236-248 | after a member is deleted, the user list is the old list with that member's entry taken out and the other names in their order |
| Coordinator.Step | server.js:65-303 | a connection adds exactly one socket, no other event adds or drops one, and a closed socket stays closed |
| Coordinator.JoinRoom | server.js:77-102 | after a join the id has a record pointing at the joining socket, the socket is stamped with the id and sits in the room the code names, no other record appears or disappears, and no timer changes; an open joiner hears its name first |
| Coordinator.Enrol | server.js:78-90 | the registry half of the join: the room the code names holds the socket and is listable, the record for the id points at the socket, and the set of records grows by that id alone |
| Coordinator.Relay | server.js:104-164 | content is sent only when the id has a record in an existing room, only to that room's members, and always stamped with the server-held name and the sender's id |
| Coordinator.RequestRetardioo | server.js:165-213 | a request never adds or removes a record, a room or a socket, and changes the registry only for a registered requester whose room's holder does not block |
| Coordinator.Crown | server.js:183-197 | the grant keeps every record, room and socket, makes the chosen record the room's holder with the special name, and keeps the room listable |
| Coordinator.FireTimer | server.js:197-209 | after a timer fires it is gone and no other timer appears; no record, room or socket is added or removed |
| Coordinator.Uncrown | server.js:198-200 | the registry half of the timer: exactly the firing timer is removed, the records and rooms stay, and the room stays listable |
| Coordinator.LeaveRoom | server.js:216-254 | a leave removes exactly the record of a registered id that has a room, and no other, and leaves the sockets alone |
| Coordinator.Vacate | server.js:219-253 | the cleanup removes exactly the departing record and leaves the sockets alone |
| Coordinator.Close | server.js:261-297 | a close marks exactly that socket closed, leaves the other sockets as they were, and removes exactly the record its id names when that record has a room |
| Coordinator.RoomCodeOf | server.js:79 | a truthy code is used as given; otherwise the room is `GENERAL` |
| Coordinator.JoinOutbox | server.js:92-102 | the joiner alone gets `username-assigned`, and gets it first; every open member gets the user list; every open member except the joiner gets the join notice, unless it is suppressed |
| Properties.JoinRecord | server.js:78-90 | after a join, the record holds the socket, the name as both current and saved name, the room code and no timer; a new room starts with just the joiner and no holder; an existing room appends the joiner; no other room appears or disappears |
| Properties.RelayKeepsRegistry | server.js:104-164 | relaying content changes no state, and the username the sender claims makes no difference |
| Properties.RelayFrames | server.js:104-164 | relayed content goes exactly to the open members of the sender's room other than the sender, stamped with the server-held name; an unknown or roomless sender produces nothing |
| Coordinator.AnnounceThenList | server.js:189-213 | the announcement and the user list go to every open member, and every announcement precedes every user list |
| Properties.GrantRefused | server.js:168-173 | in a valid registry, when the room already has a holder, the requester alone is told so and nothing changes |
| Properties.GrantChooses | server.js:174-181 | without a holder, the grant goes to the first member of the shuffled member list, who is a registered member of the room |
| Properties.AnyMemberCanBeGranted | server.js:174-181 | every member of the room can be the one chosen |
| Properties.GrantRenamesOne | server.js:183-197 | exactly the chosen record is renamed to the special name, its previous name is saved, it becomes the room's holder, a fresh timer remembers it, and everything else is unchanged |
| Properties.TimerRestores | server.js:197-209 | the firing timer restores the saved name, clears the holder and the record's timer, leaves the other records alone, and keeps the registry valid |
| Properties.StaleTimerIsQuiet | server.js:221 | a cleared timer never fires: an unknown timer changes nothing |
| Properties.SingleHolder | server.js:169-200 | in every valid registry a room has at most one pending timer, and a record carries the special name exactly while its timer is pending and it holds its room |
| Coordinator.RevertFrames | server.js:220-231 | a departing record that holds the status and has a timer announces its revert to the open members; otherwise no revert is sent |
| Coordinator.NoticeFrames | server.js:241-244 | the leave notice goes to the remaining open members other than the departing id, unless suppressed |
| Coordinator.ListFrames | server.js:246-250 | the user list goes only to the remaining members, and only when the room still exists |
| Coordinator.CleanupFields | server.js:219-239 | cancelling keeps every name; removing the socket deletes the room exactly when no member is left |
| Properties.DepartReverts | server.js:219-253 | a departure sends a revert exactly when the departing record holds the status with a pending timer |
| Properties.DepartNotice | server.js:241-244 | a departure's notice frames are exactly the leave notices to the remaining open members other than the leaver |
| Properties.DepartList | server.js:246-250 | a departure's user lists are exactly the remaining members' names, sent only when someone remains |
| Properties.DepartOnce | server.js:219-253 | no socket receives the same frame twice on a departure |
| Properties.DepartRegistry | server.js:219-253 | after a departure the record is gone, the socket is in no room, the room is deleted exactly when it is left empty, the timer is cancelled, the holder is cleared, and the registry stays valid |
| Properties.AnonymousLeaveIsQuiet | server.js:216-218 | a leave frame without a client id, as the browser sends it, changes nothing |
| Properties.UnregisteredCloseIsQuiet | server.js:261-263 | closing a socket that never joined only marks it closed |
| Properties.CloseDeparts | server.js:261-297 | closing a joined socket performs the full departure, notice included |
| Properties.CloseAfterLeaveIsQuiet | server.js:253-263 | after the record was removed by a leave, a later close only marks the socket closed |
| Properties.CancelledTimerIsQuiet | server.js:265-267 | once the holder has departed, its cancelled timer firing changes nothing |
| Properties.NamesMayCollide | server.js:80-96 | two joins to one room can draw the same name, and the user list then shows it twice |
| Invariant.EmptyValid | server.js:13-14 | the empty registry is valid |
| Invariant.EnrolValid | server.js:78-90 | a join with a fresh id on a socket that has not joined keeps the registry valid |
| Invariant.GrantValid | server.js:183-197 | a grant in a room without a holder keeps the registry valid |
| Invariant.FireValid | server.js:197-209 | a timer firing keeps the registry valid |
| Invariant.DepartValid | server.js:219-253 | a departure keeps the registry valid |
| Invariant.CloseValid | server.js:261-297 | closing a socket keeps the registry valid |
| Invariant.GuardsAgree | server.js:169 | on a valid registry, the holder test as written and the corrected test give the same result for every request |
| Invariant.StepPreservesValid | server.js:72-298 | every event that meets the cooperation condition keeps the registry valid, with the holder test as written |
| Invariant.Run | server.js:65-303 | any trace of such events from a valid registry ends in a valid registry |
| Properties.RejoinBeforeClose | server.js:78-297 | a page that joins again with its id before the server has seen its old socket close breaks the cooperation condition; the join overwrites the record, and the old socket's close deletes it and leaves the new socket in the room with no record, so the room's user list can no longer be built |
| Findings.AsWrittenGrantsTwice | server.js:169 | with the empty id as holder, the guard as written lets a second grant through; the grant saves the special name as the name to restore, and rooms, records and timers no longer agree |
| Findings.AsWrittenStrandsName | server.js:197-200 | when both timers then fire, the record keeps the special name for good, with no timer left to restore it |
| Findings.CorrectedRefuses | server.js:169-173 | with a guard that treats any holder as blocking, the same request is refused: the requester alone hears the notice and the registry is unchanged |
| Reactions.Record | public/script.js:178-183 | the reaction is recorded; other emoji are untouched; the existing order is kept; the list holds exactly the old users plus the new one, with no repeats |
| Reactions.RecordIdempotent | public/script.js:181 | recording the same reaction twice gives the same map as recording it once |
| Reactions.RecordAppends | public/script.js:178-183 | a missing key starts as the one-user list; a new user is appended at the end; an already listed user changes nothing |
| Reactions.ReplayContents | public/script.js:178-183 | after any sequence of reactions, a user is listed under an emoji exactly when they reacted with it or were already listed, and lists stay free of repeats |
| Reactions.AddReaction | public/script.js:173-189 | an unknown message id changes nothing; it throws exactly when the element has no stored data, or the emoji names an inherited object property the record does not own; otherwise only that element changes, its record gains the reaction and its box shows the new summary |
| Reactions.AddReactionIdempotent | public/script.js:173-189 | the same reaction arriving twice leaves the page as one arrival does |
| Reactions.Summary | public/script.js:191-202 | the summary is empty exactly when neither thumb key has users |
| Reactions.SummaryJoins | public/script.js:191-202 | the summary is the non-empty thumb entries, up before down, each `key count`, joined by single spaces |
| Reactions.SummaryIgnoresOthers | public/script.js:195-200 | reactions under any other emoji do not change the summary |
| Preview.Truncate | public/script.js:152 | content of at most 50 characters is kept; longer content becomes its first 50 characters plus `...`; the result never exceeds 53 characters |
| Preview.TruncateIdempotent | public/script.js:152 | cutting a preview again changes nothing |
| Preview.SubstituteIdempotent | public/script.js:149-151 | substituting twice is substituting once |
| Preview.PlaceholderMatchesQuote | public/script.js:342-346 | the placeholder the sender sees and the quote line every receiver renders show the same preview |
| Preview.LabelsShowInFull | public/script.js:149-152 | the image and voice labels are short enough that the preview shows them whole |
| MessageIds.Tick | public/script.js:107 | one use of the counter issues at most one id, numbered with the current value, and increments only when it issues one; a send always issues a sent id; a render issues a fallback id exactly when its message id is falsy |
| MessageIds.Issue | public/script.js:391 | without a reset, the ids issued are numbered consecutively from the starting value |
| MessageIds.IdTextInjective | public/script.js:391 | ids issued at different counter values differ, whether they are sent ids or fallback element ids |
| MessageIds.IdsDistinct | public/script.js:391 | between resets, every issued id is new |
| MessageIds.SentIdsDistinct | public/script.js:391 | the ids sent between resets are `clientId-n` for consecutive `n`, pairwise distinct |
| MessageIds.ResetRepeatsIds | public/script.js:47 | after a reset the first id sent repeats the first id sent before it |
| MessageIds.IssueKept | public/script.js:47 | a counter that survives resets numbers its ids consecutively |
| MessageIds.IssueKeptAgrees | public/script.js:47 | without resets, the kept counter and the source's counter issue the same ids |
| MessageIds.KeptIdsDistinct | public/script.js:47 | with the counter kept, every id issued over any run is new |
| Copy.CopyMessage | public/script.js:315-332 | nothing selected copies nothing; image and voice messages copy their stored content |
| Copy.AfterFirstHead | public/script.js:321 | when the text before the first `": "` has none of its own, extraction returns everything after it, later separators included |
| Copy.CopyRoundTrip | public/script.js:321 | a text message rendered as `username: message` copies back exactly `message`, provided the name has no `": "` |
| Copy.GeneratedCopyRoundTrip | public/script.js:321 | the round trip holds for every generated name |
| Copy.CopyShown | public/script.js:321 | a text message whose author has no `": "` in their name copies as the message followed by whatever its reactions box shows |
| Copy.CopyAfterReaction | public/script.js:321 | after a thumbs-up, copying a text message returns the message followed by the reaction summary |
| Copy.CopyReply | public/script.js:152 | copying a reply returns the quoted preview, then the author's name, `": "` and the message |
| Copy.CopyReplyExample | public/script.js:152 | bob's reply `hi` to alice's `hello` copies as `hellobob: hi` |
| Copy.CopyFromRecord | public/script.js:322-324 | copying from the stored record returns the stored content for text, image and voice |
| Copy.CopyFromRecordIsMessage | public/script.js:153 | copying from the record gives back the message for plain messages and replies, whatever reactions have arrived |

## Left out

- Express, static file serving, the HTTP server and `listen`: they are outside the relay's logic.
- The keep-alive `ping`/`pong` sweep (server.js:49-63). It only terminates sockets, which then
  close; the model's `close` event covers that.
- JSON parsing and the `try`/`catch` around the handler. A frame that does not parse, or has an
  unknown type, is the event `MalformedFrame` and changes nothing.
- Frame fields are absent, `null` or strings. A join whose `clientId` is not a string (a
  number, say) is not modelled, because records are keyed by strings.
- The server's `Map` and `Set` treat every key as an ordinary key, and so does the model. The
  browser's reaction record is a plain object. The model covers the names it inherits from
  `Object.prototype`, such as `toString` and `__proto__`: `addReaction` throws on them
  (`Reactions.Throws`). Other ways an object key differs from a map key are left out.
- The real one-minute delay and the timer queue are left out. A timer firing is an event, so
  any interleaving of firings with frames can be stated.
- `crypto.randomInt` is left out. Its results are parameters (`NameDraw`, the pick function),
  constrained only to their ranges.
- Logging (`console.log`, `console.warn`, `console.error`) is left out.
- Coordinator.Step: `join-room` overwrites a record held under the same id, and it never
  removes a socket from an earlier room. The invariant is proved only for a join with a fresh
  id on a socket that has not joined.
- Invariant.StepPreservesValid: this lemma and `Invariant.Run` also assume that a leave frame
  carries the sender's own id.
- Invariant.StepPreservesValid: the invariant is not claimed when a page rejoins with its
  fixed id (public/script.js:4, public/script.js:57) before the server has seen its old socket
  close (server.js:261-296). The join overwrites the record (server.js:83). The old socket's
  close then deletes it and strands the new socket in the room. `Properties.RejoinBeforeClose`
  shows this.
- Everything DOM-bound in the browser is left out: element creation, `innerHTML` markup,
  scrolling, the context menu, touch handling, the reaction-users popup, the clipboard,
  `FileReader`, `MediaRecorder` and the 5 MB size check.
- Interpolated names and messages are treated as plain text. `innerHTML` would parse any
  markup in them.
- Lengths are counted in Unicode scalar values, not UTF-16 code units. So `substring(0, 50)`
  never splits a surrogate pair here.
- The `JSON.stringify`/`JSON.parse` round trip of a stored record is the identity.
- Copy.CopyMessage: the element's text is modelled only for the text message and the reply.
  For images and voice the stored content is copied, so their markup text is not needed.
- Reactions.AddReaction: the page is keyed by the id after `msg-`. Two elements with one id
  (see the counter finding) are not modelled; `getElementById` would return the first of them.
- The clipboard's `then`/`catch` status lines are left out.
- `replyToData.username`'s fallback chain (public/script.js:340) is left out.

## Findings

| source | as written | input that shows it | evidently intended | confidence | as-written member | corrected member |
|---|---|---|---|---|---|---|
| server.js:169 | `if (room.retardiooActiveClient)` tests the holder id for truthiness | a client that joined with `clientId: ""` holds the status; a second `retardioo` request in its room passes the test, saves `Retardioo` as the name to restore, and starts a second timer; once both timers fire, the name stays `Retardioo` for good | any recorded holder, whatever its id, blocks a new grant | medium, not executed | Findings.AsWrittenGrantsTwice | Findings.CorrectedRefuses |
| public/script.js:321 | a text message's copy is taken from the whole element's `textContent`, which includes the reactions box that `addMessage` places inside the element | `alice: hello` receives one thumbs-up; copying it gives `hello` followed by the thumbs-up summary | copy the stored message, as the image and voice branches copy their stored content | high, not executed | Copy.CopyAfterReaction | Copy.CopyFromRecordIsMessage |
| public/script.js:321 | a reply's `textContent` runs its quote line and its message line together, and the copy keeps everything after the quote author's `": "` | bob replies `hi` to alice's `hello`; copying the reply gives `hellobob: hi` | copy the reply's own message, `hi` | high, not executed | Copy.CopyReplyExample | Copy.CopyFromRecordIsMessage |
| public/script.js:47 | leaving the chat resets `messageCounter` to 0, but `clientId` is fixed for the page's lifetime | send a message (`k-0`), leave, rejoin the same room and send again: the new message is `k-0` too, while members who stayed still show the old `msg-k-0` and will attach reactions to it | ids stay unique for the whole page session, so the counter is not reset while the client id is kept | medium, not executed | MessageIds.ResetRepeatsIds | MessageIds.KeptIdsDistinct |
