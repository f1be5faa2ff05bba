/** `copyMessage` (public/script.js): the text a user copies from a message. For a text message
    it takes everything after the first `": "` of the element's whole text; for media it takes
    the stored content. The elements it reads are built by `addMessage` and `addReply`. */
module Copy {
  import opened Js
  import opened Names
  import opened Preview
  import opened Reactions

  const Separator: string := ": "

  /** `s` has no `": "` in it. */
  predicate NoSeparator(s: string) {
    forall j: nat :: j < |s| ==> !OccursAt(s, Separator, j)
  }

  /** The line `addMessage` shows for a text message: `${username}: ${message}`. */
  function Rendered(username: string, message: string): string {
    username + Separator + message
  }

  /** A text message as `addMessage` builds it, with an empty reactions box. */
  function PlainMessage(username: string, message: string): Element {
    Element(Some(Stored("text", message, map[])), Rendered(username, message), "")
  }

  /** A reply as `addReply` builds it: the quote line (author, `: `, preview) and then the
      message line (`username:` in bold, a space, the message), with an empty reactions box.
      Its record is typed `text` and holds the message. */
  function ReplyMessage(quoted: string, kind: string, content: string, username: string, message: string): Element {
    Element(Some(Stored("text", message, map[])),
      quoted + Separator + QuotePreview(kind, content) + Rendered(username, message), "")
  }

  /** An element's `textContent`: its own lines followed by its reactions box. */
  function TextContent(el: Element): string {
    el.body + el.shown
  }

  /** `text.split(': ').slice(1).join(': ')`. */
  function AfterFirst(text: string): string {
    Join(Split(text, Separator)[1..], Separator)
  }

  /** `copyMessage` as written: nothing selected copies nothing; a text message copies what
      follows the first separator of its whole text; media copy their content; anything else
      copies the empty string. */
  function CopyMessage(selected: Option<Element>): (r: Option<string>)
    ensures selected.None? <==> r.None?
    ensures selected.Some? && selected.value.record.Some? && selected.value.record.value.kind in {"image", "voice"}
      ==> r == Some(selected.value.record.value.content)
  {
    match selected
    case None => None
    case Some(el) =>
      match el.record
      case None => Some("")
      case Some(st) =>
        if st.kind == "text" then Some(AfterFirst(TextContent(el)))
        else if st.kind == "image" || st.kind == "voice" then Some(st.content)
        else Some("")
  }

  /** Whatever precedes a first separator is cut off and the rest comes back intact, separators
      in it included. */
  lemma {:induction false} AfterFirstHead(head: string, tail: string)
    requires NoSeparator(head)
    ensures AfterFirst(head + Separator + tail) == tail
  {
    var s := head + Separator + tail;
    forall j: nat | j < |head|
      ensures !OccursAt(s, Separator, j)
    {
      if j + 2 <= |head| {
        assert s[j..j + 2] == head[j..j + 2];
        assert !OccursAt(head, Separator, j);
      } else {
        assert s[j + 1] == ':';
      }
    }
    SplitAtFirst(head, Separator, tail);
    assert Split(s, Separator)[1..] == Split(tail, Separator);
    JoinSplit(tail, Separator);
  }

  /** Copying a text message whose author's name has no separator gives back exactly the
      message, even when the message has separators of its own. */
  lemma CopyRoundTrip(username: string, message: string)
    requires NoSeparator(username)
    ensures CopyMessage(Some(PlainMessage(username, message))) == Some(message)
  {
    AfterFirstHead(username, message);
    assert TextContent(PlainMessage(username, message)) == username + Separator + message;
  }

  /** Generated names are letters and digits, so they never hold the separator. */
  lemma GeneratedHasNoSeparator(d: NameDraw)
    requires InRange(d)
    ensures NoSeparator(GenerateUsername(d))
  {
    var name := GenerateUsername(d);
    forall j: nat | j < |name|
      ensures !OccursAt(name, Separator, j)
    {
      if j + 2 <= |name| {
        assert IsLetterOrDigit(name[j]);
        assert name[j..j + 2][0] == name[j];
      }
    }
  }

  lemma GeneratedCopyRoundTrip(d: NameDraw, message: string)
    requires InRange(d)
    ensures CopyMessage(Some(PlainMessage(GenerateUsername(d), message))) == Some(message)
  {
    GeneratedHasNoSeparator(d);
    CopyRoundTrip(GenerateUsername(d), message);
  }

  // ---------------------------------------------------------------------------
  // The whole text is more than the message line

  /** Once a reaction shows, the reactions box sits inside the copied element, so the copy of a
      text message ends with the reaction summary. */
  lemma CopyAfterReaction(username: string, message: string, id: string, viewer: string)
    requires NoSeparator(username)
    ensures var page := AddReaction(map[id := PlainMessage(username, message)], id, ThumbsUp, viewer);
      && page.Done?
      && var shown := page.page[id].shown;
      && shown == Summary(page.page[id].record.value.reactions) && shown != ""
      && CopyMessage(Some(page.page[id])) == Some(message + shown)
      && CopyMessage(Some(page.page[id])) != Some(message)
  {
    var el := ThumbsUpShows(username, message, id, viewer);
    CopyShown(username, message, el);
    assert |message + el.shown| > |message|;
  }

  /** A text message's copy runs on past the message into whatever its reactions box shows. */
  lemma CopyShown(username: string, message: string, el: Element)
    requires NoSeparator(username)
    requires el.record.Some? && el.record.value.kind == "text" && el.body == Rendered(username, message)
    ensures CopyMessage(Some(el)) == Some(message + el.shown)
  {
    assert TextContent(el) == username + Separator + (message + el.shown);
    AfterFirstHead(username, message + el.shown);
  }

  /** The element after one thumbs-up: its record lists the viewer and its box is not empty. */
  lemma ThumbsUpShows(username: string, message: string, id: string, viewer: string) returns (el: Element)
    ensures var page := AddReaction(map[id := PlainMessage(username, message)], id, ThumbsUp, viewer);
      && page.Done? && id in page.page && el == page.page[id]
      && el.record == Some(Stored("text", message, map[ThumbsUp := [viewer]]))
      && el.body == Rendered(username, message)
      && el.shown == Summary(el.record.value.reactions) && el.shown != ""
  {
    ThumbsNotInherited();
    var rs := Record(map[], ThumbsUp, viewer);
    RecordAppends(map[], ThumbsUp, viewer);
    assert rs == map[ThumbsUp := [viewer]];
    assert Count(rs, ThumbsUp) == 1;
    el := Element(Some(Stored("text", message, rs)), Rendered(username, message), Summary(rs));
  }

  /** A reply's quote line and message line run together in its text, so its copy starts at the
      quoted preview and carries the author's name along. */
  lemma CopyReply(quoted: string, kind: string, content: string, username: string, message: string)
    requires NoSeparator(quoted)
    ensures CopyMessage(Some(ReplyMessage(quoted, kind, content, username, message)))
      == Some(QuotePreview(kind, content) + username + Separator + message)
  {
    var tail := QuotePreview(kind, content) + Rendered(username, message);
    assert tail == QuotePreview(kind, content) + username + Separator + message;
    assert TextContent(ReplyMessage(quoted, kind, content, username, message)) == quoted + Separator + tail;
    AfterFirstHead(quoted, tail);
  }

  /** Bob replies "hi" to Alice's "hello": copying the reply gives "hellobob: hi". */
  lemma CopyReplyExample()
    ensures CopyMessage(Some(ReplyMessage("alice", "text", "hello", "bob", "hi"))) == Some("hellobob: hi")
  {
    AliceHasNoSeparator();
    CopyReply("alice", "text", "hello", "bob", "hi");
    assert QuotePreview("text", "hello") == "hello";
    assert "hello" + "bob" + Separator + "hi" == "hellobob: hi";
  }

  lemma AliceHasNoSeparator()
    ensures NoSeparator("alice")
  {
    var name := "alice";
    forall j: nat | j < |name|
      ensures !OccursAt(name, Separator, j)
    {
      assert name[j] != ':';
      if j + 2 <= |name| {
        assert name[j..j + 2][0] == name[j];
      }
    }
  }

  // ---------------------------------------------------------------------------
  // Copying from the record

  /** The copy the text branch evidently intends: the stored message, as the media branches
      already do. The stored record of a text message or a reply holds exactly the message. */
  function CopyFromRecord(selected: Option<Element>): (r: Option<string>)
    ensures selected.None? <==> r.None?
    ensures selected.Some? && selected.value.record.Some? && selected.value.record.value.kind in {"text", "image", "voice"}
      ==> r == Some(selected.value.record.value.content)
  {
    match selected
    case None => None
    case Some(el) =>
      match el.record
      case None => Some("")
      case Some(st) =>
        if st.kind == "text" || st.kind == "image" || st.kind == "voice" then Some(st.content)
        else Some("")
  }

  /** Copying from the record gives the message back for plain messages and replies alike,
      whatever the author's name and whatever reactions have arrived. */
  lemma CopyFromRecordIsMessage(quoted: string, kind: string, content: string, username: string, message: string,
                                reactions: seq<(string, string)>)
    ensures var plain := PlainMessage(username, message);
      var reply := ReplyMessage(quoted, kind, content, username, message);
      && CopyFromRecord(Some(Reacted(plain, reactions))) == Some(message)
      && CopyFromRecord(Some(Reacted(reply, reactions))) == Some(message)
  {
    ReactedKeepsRecord(PlainMessage(username, message), reactions);
    ReactedKeepsRecord(ReplyMessage(quoted, kind, content, username, message), reactions);
  }

  /** An element after the reactions `events` have arrived for it, one `addReaction` each. */
  function Reacted(el: Element, events: seq<(string, string)>): Element
    decreases |events|
  {
    if |events| == 0 then el
    else
      var page := AddReaction(map["m" := el], "m", events[0].0, events[0].1);
      if page.Done? then Reacted(page.page["m"], events[1..]) else el
  }

  lemma {:induction false} ReactedKeepsRecord(el: Element, events: seq<(string, string)>)
    requires el.record.Some?
    ensures Reacted(el, events).record.Some?
    ensures Reacted(el, events).record.value.kind == el.record.value.kind
    ensures Reacted(el, events).record.value.content == el.record.value.content
    ensures Reacted(el, events).body == el.body
    decreases |events|
  {
    if |events| > 0 {
      var page := AddReaction(map["m" := el], "m", events[0].0, events[0].1);
      if page.Done? {
        ReactedKeepsRecord(page.page["m"], events[1..]);
      }
    }
  }
}
