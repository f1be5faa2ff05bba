/** The browser's per-message reaction bookkeeping (public/script.js): `addReaction` and the
    summary `updateReactionsDisplay` writes into a message's reactions box. */
module Reactions {
  import opened Js

  /** A message's `reactions` object: emoji to the users who chose it, in order. */
  type Reactions = map<string, seq<string>>

  /** The record a rendered message keeps in `dataset.message`, as far as the client's pure
      logic looks at it: `type`, `content` and the reaction map. */
  datatype Stored = Stored(kind: string, content: string, reactions: Reactions)

  /** A rendered message element: its stored record (absent on status lines and on media that
      arrived without data), the text of its own lines, and the text of its reactions box. */
  datatype Element = Element(record: Option<Stored>, body: string, shown: string)

  /** The message elements on the page, by the id that follows `msg-`. */
  type Page = map<string, Element>

  /** What a handler call leaves: the page, or an exception that left it untouched. */
  datatype Outcome = Done(page: Page) | Threw

  /** The two keys the summary counts, as the source spells them: the UTF-8 bytes of the thumb
      emoji read back as Windows-1252 text. They are opaque labels here. */
  const ThumbsUp: string := "\U{F0}\U{178}\U{2018}"
  const ThumbsDown: string := "\U{F0}\U{178}\U{2018}\U{17D}"

  /** The names every plain object inherits from `Object.prototype`. Looking one of them up
      on a reactions object that does not own it finds a function (the prototype itself for
      `__proto__`): truthy, and without an `includes` method. */
  const InheritedNames: set<string> := {
    "constructor", "hasOwnProperty", "isPrototypeOf", "propertyIsEnumerable", "toString",
    "toLocaleString", "valueOf", "__proto__", "__defineGetter__", "__defineSetter__",
    "__lookupGetter__", "__lookupSetter__"}

  predicate Inherited(name: string) {
    name in InheritedNames
  }

  /** The thumb keys are too short to be inherited names. */
  lemma ThumbsNotInherited()
    ensures !Inherited(ThumbsUp) && !Inherited(ThumbsDown)
  {
    assert |ThumbsUp| == 3 && |ThumbsDown| == 4;
    assert forall n :: n in InheritedNames ==> |n| >= 7;
  }

  /** Every user list in `rs` is free of repeats. */
  predicate Distinct(rs: Reactions) {
    forall e :: e in rs ==> NoDup(rs[e])
  }

  // ---------------------------------------------------------------------------
  // Recording a reaction

  /** The map update inside `addReaction`: create the list when the key is absent (an empty
      list is truthy and stays), then append the user unless already listed. */
  function Record(rs: Reactions, emoji: string, user: string): (r: Reactions)
    ensures r.Keys == rs.Keys + {emoji}
    ensures emoji in r && user in r[emoji]
    ensures forall e :: e in rs && e != emoji ==> r[e] == rs[e]
    ensures emoji in rs ==> |rs[emoji]| <= |r[emoji]| && r[emoji][..|rs[emoji]|] == rs[emoji]
    ensures forall u :: u in r[emoji] <==> u == user || (emoji in rs && u in rs[emoji])
    ensures Distinct(rs) ==> Distinct(r)
  {
    var users := if emoji in rs then rs[emoji] else [];
    var users' := if user in users then users else users + [user];
    assert users'[..|users|] == users;
    rs[emoji := users']
  }

  /** Recording the same reaction twice is recording it once. */
  lemma RecordIdempotent(rs: Reactions, emoji: string, user: string)
    ensures Record(Record(rs, emoji, user), emoji, user) == Record(rs, emoji, user)
  {
    var r := Record(rs, emoji, user);
    assert r[emoji := r[emoji]] == r;
  }

  /** A new user goes to the end of the list; a listed user changes nothing. */
  lemma RecordAppends(rs: Reactions, emoji: string, user: string)
    ensures emoji in rs && user in rs[emoji] ==> Record(rs, emoji, user) == rs
    ensures emoji in rs && user !in rs[emoji] ==> Record(rs, emoji, user)[emoji] == rs[emoji] + [user]
    ensures emoji !in rs ==> Record(rs, emoji, user)[emoji] == [user]
  {
    if emoji in rs && user in rs[emoji] {
      assert rs[emoji := rs[emoji]] == rs;
    }
  }

  /** The reactions a sequence of `(emoji, user)` events leaves, applied in order. */
  function Replay(rs: Reactions, events: seq<(string, string)>): Reactions
    decreases |events|
  {
    if |events| == 0 then rs
    else Replay(Record(rs, events[0].0, events[0].1), events[1..])
  }

  /** `user` is listed under `emoji`. */
  predicate Listed(rs: Reactions, emoji: string, user: string) {
    emoji in rs && user in rs[emoji]
  }

  /** One reaction adds exactly its own pair to the listed pairs. */
  lemma RecordListed(rs: Reactions, emoji: string, user: string)
    ensures forall e, u :: Listed(Record(rs, emoji, user), e, u) <==> Listed(rs, e, u) || (e == emoji && u == user)
  {
  }

  /** Independently of order and repetition, a user is listed under an emoji exactly when they
      were already listed or reacted with it, and lists stay free of repeats. */
  lemma {:induction false} ReplayContents(rs: Reactions, events: seq<(string, string)>)
    requires Distinct(rs)
    ensures Distinct(Replay(rs, events))
    ensures forall e, u :: Listed(Replay(rs, events), e, u) <==> Listed(rs, e, u) || (e, u) in events
    decreases |events|
  {
    if |events| > 0 {
      var r1 := Record(rs, events[0].0, events[0].1);
      var after := Replay(r1, events[1..]);
      ReplayContents(r1, events[1..]);
      RecordListed(rs, events[0].0, events[0].1);
      assert Replay(rs, events) == after;
      assert events == [events[0]] + events[1..];
      forall e, u
        ensures Listed(after, e, u) <==> Listed(rs, e, u) || (e, u) in events
      {
        assert (e, u) in events <==> (e, u) == events[0] || (e, u) in events[1..];
      }
    }
  }

  // ---------------------------------------------------------------------------
  // The summary

  /** How many users chose `key`; an absent key counts as none. */
  function Count(rs: Reactions, key: string): nat {
    if key in rs then |rs[key]| else 0
  }

  /** One entry of the summary: the key, a space and the count in decimal. */
  function Entry(key: string, n: nat): string {
    key + " " + Decimal(n)
  }

  /** The text `updateReactionsDisplay` builds before trimming: the up entry followed by a
      space, then the down entry, each only when its list is non-empty. */
  function Untrimmed(rs: Reactions): string {
    (if Count(rs, ThumbsUp) > 0 then Entry(ThumbsUp, Count(rs, ThumbsUp)) + " " else "")
    + (if Count(rs, ThumbsDown) > 0 then Entry(ThumbsDown, Count(rs, ThumbsDown)) else "")
  }

  /** `updateReactionsDisplay`'s text. */
  function Summary(rs: Reactions): (text: string)
    ensures text == "" <==> Count(rs, ThumbsUp) == 0 && Count(rs, ThumbsDown) == 0
  {
    SummaryTrim(rs);
    Trim(Untrimmed(rs))
  }

  /** The summary's entries, one per non-empty thumb key, up first. */
  function Parts(rs: Reactions): seq<string> {
    (if Count(rs, ThumbsUp) > 0 then [Entry(ThumbsUp, Count(rs, ThumbsUp))] else [])
    + (if Count(rs, ThumbsDown) > 0 then [Entry(ThumbsDown, Count(rs, ThumbsDown))] else [])
  }

  /** The summary is its entries joined by single spaces. */
  lemma SummaryJoins(rs: Reactions)
    ensures Summary(rs) == Join(Parts(rs), " ")
  {
    SummaryTrim(rs);
  }

  lemma SummaryTrim(rs: Reactions)
    ensures Trim(Untrimmed(rs)) == Join(Parts(rs), " ")
    ensures Join(Parts(rs), " ") == "" <==> Count(rs, ThumbsUp) == 0 && Count(rs, ThumbsDown) == 0
  {
    var nu, nd := Count(rs, ThumbsUp), Count(rs, ThumbsDown);
    var a := Entry(ThumbsUp, nu);
    var b := Entry(ThumbsDown, nd);
    EntryEnds(ThumbsUp, nu);
    EntryEnds(ThumbsDown, nd);
    if nu > 0 && nd > 0 {
      assert Parts(rs) == [a, b];
      assert Untrimmed(rs) == a + " " + b;
      TrimKeeps(a + " " + b);
      assert Join([a, b], " ") == a + " " + Join([b], " ");
    } else if nu > 0 {
      assert Parts(rs) == [a];
      assert Untrimmed(rs) == a + " ";
      TrimDropsSpace(a);
    } else if nd > 0 {
      assert Parts(rs) == [b];
      assert Untrimmed(rs) == b;
      TrimKeeps(b);
    } else {
      assert Parts(rs) == [];
      assert Untrimmed(rs) == "";
    }
  }

  lemma EntryEnds(key: string, n: nat)
    requires |key| > 0
    ensures var s := Entry(key, n); |s| > |key| && s[0] == key[0] && IsDigit(s[|s| - 1])
  {
    var d := Decimal(n);
    assert IsDigit(d[|d| - 1]);
  }

  /** A string that neither starts nor ends with white space is left alone by `trim`. */
  lemma TrimKeeps(s: string)
    requires |s| > 0 && !IsJsSpace(s[0]) && !IsJsSpace(s[|s| - 1])
    ensures Trim(s) == s
  {
  }

  /** `trim` drops the one trailing space after such a string. */
  lemma TrimDropsSpace(s: string)
    requires |s| > 0 && !IsJsSpace(s[0]) && !IsJsSpace(s[|s| - 1])
    ensures Trim(s + " ") == s
  {
    var t := s + " ";
    assert t[0] == s[0];
    assert t[..|t| - 1] == s;
  }

  /** Only the two thumb keys show: any other emoji leaves the summary as it was. */
  lemma SummaryIgnoresOthers(rs: Reactions, e: string, users: seq<string>)
    requires e != ThumbsUp && e != ThumbsDown
    ensures Summary(rs[e := users]) == Summary(rs)
  {
    assert Count(rs[e := users], ThumbsUp) == Count(rs, ThumbsUp);
    assert Count(rs[e := users], ThumbsDown) == Count(rs, ThumbsDown);
  }

  // ---------------------------------------------------------------------------
  // addReaction on the page

  /** `addReaction(messageId, emoji, username)` throws on a known element that has no stored
      record (`JSON.parse(undefined)`), and on an emoji the record's reaction object does not
      own but inherits: the inherited value is truthy, so no list is created, and calling
      `includes` on it fails. */
  predicate Throws(page: Page, messageId: string, emoji: string) {
    && messageId in page
    && match page[messageId].record
       case None => true
       case Some(st) => emoji !in st.reactions && Inherited(emoji)
  }

  /** `addReaction(messageId, emoji, username)`: an unknown id only logs; the cases above
      throw before anything is written; otherwise the record gains the reaction and the
      reactions box shows the new summary. */
  function AddReaction(page: Page, messageId: string, emoji: string, user: string): (r: Outcome)
    ensures messageId !in page ==> r == Done(page)
    ensures r.Threw? <==> Throws(page, messageId, emoji)
    ensures r.Done? ==> r.page.Keys == page.Keys
    ensures r.Done? ==> forall id :: id in page && id != messageId ==> r.page[id] == page[id]
    ensures r.Done? && messageId in page ==>
      && r.page[messageId].body == page[messageId].body
      && r.page[messageId].record.Some?
      && var before := page[messageId].record.value;
      && r.page[messageId].record.value == before.(reactions := Record(before.reactions, emoji, user))
      && r.page[messageId].shown == Summary(r.page[messageId].record.value.reactions)
  {
    if messageId !in page then Done(page)
    else
      var el := page[messageId];
      match el.record
      case None => Threw
      case Some(st) =>
        if emoji !in st.reactions && Inherited(emoji) then Threw
        else Done(Rewrite(page, messageId, st, emoji, user))
  }

  /** The write-back of `addReaction`: the element keeps its lines, its record gains the
      reaction and its box shows the new summary; no other element changes. */
  function Rewrite(page: Page, messageId: string, st: Stored, emoji: string, user: string): (p: Page)
    requires messageId in page
    ensures p.Keys == page.Keys
    ensures forall id :: id in page && id != messageId ==> p[id] == page[id]
    ensures p[messageId].body == page[messageId].body
    ensures p[messageId].record == Some(st.(reactions := Record(st.reactions, emoji, user)))
    ensures p[messageId].shown == Summary(Record(st.reactions, emoji, user))
  {
    var rs := Record(st.reactions, emoji, user);
    page[messageId := Element(Some(st.(reactions := rs)), page[messageId].body, Summary(rs))]
  }

  /** The same reaction applied twice (a user clicking the same reaction button again, say)
      leaves the page as one application does. */
  lemma AddReactionIdempotent(page: Page, messageId: string, emoji: string, user: string)
    requires AddReaction(page, messageId, emoji, user).Done?
    ensures var once := AddReaction(page, messageId, emoji, user).page;
      AddReaction(once, messageId, emoji, user) == Done(once)
  {
    if messageId in page {
      var once := AddReaction(page, messageId, emoji, user).page;
      RecordIdempotent(page[messageId].record.value.reactions, emoji, user);
      AddReactionFixed(once, messageId, emoji, user);
    }
  }

  /** A reaction already recorded and already shown changes nothing. */
  lemma AddReactionFixed(page: Page, messageId: string, emoji: string, user: string)
    requires messageId in page && page[messageId].record.Some?
    requires var rs := page[messageId].record.value.reactions;
      Record(rs, emoji, user) == rs && page[messageId].shown == Summary(rs)
    ensures AddReaction(page, messageId, emoji, user) == Done(page)
  {
    var el := page[messageId];
    assert el.record.value.(reactions := el.record.value.reactions) == el.record.value;
    assert Element(el.record, el.body, el.shown) == el;
    assert page[messageId := el] == page;
  }
}
