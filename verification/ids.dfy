/** The browser's message numbering (public/script.js): one counter, post-incremented, feeds
    both the ids of the messages this client sends (`clientId-n`) and the fallback element id of
    any message rendered without an id; leaving the chat resets it to zero. */
module MessageIds {
  import opened Js

  /** The three things that touch the counter. `Render` carries the message id the rendered
      data supplies (`Undefined` for a status line, which has no data). */
  datatype Use = Send | Render(messageId: Val) | Reset

  /** An id the counter produced: a sent message's id or an element's fallback id. */
  datatype Issued = Sent(n: nat) | Fallback(n: nat)

  /** The text of an issued id for the client `clientId`. */
  function IdText(clientId: string, x: Issued): string {
    match x
    case Sent(n) => clientId + "-" + Decimal(n)
    case Fallback(n) => Decimal(n)
  }

  /** One use of the counter at value `n`: what it issues and the counter after it. A render
      whose data carries a truthy id takes that id and leaves the counter alone. */
  function Tick(n: nat, u: Use): (r: (Option<Issued>, nat))
    ensures u.Reset? ==> r == (None, 0)
    ensures !u.Reset? ==> r.1 == (if r.0.Some? then n + 1 else n)
    ensures r.0.Some? ==> r.0.value.n == n
    ensures u.Send? ==> r.0 == Some(Sent(n))
    ensures u.Render? ==> (r.0.Some? <==> !Truthy(u.messageId)) && (r.0.Some? ==> r.0.value.Fallback?)
  {
    match u
    case Send => (Some(Sent(n)), n + 1)
    case Render(id) => if Truthy(id) then (None, n) else (Some(Fallback(n)), n + 1)
    case Reset => (None, 0)
  }

  /** The ids issued over a run of uses starting at counter `n`, and the final counter. */
  function Issue(n: nat, uses: seq<Use>): (r: (seq<Issued>, nat))
    ensures (forall i :: 0 <= i < |uses| ==> !uses[i].Reset?) ==>
      r.1 == n + |r.0| && forall i :: 0 <= i < |r.0| ==> r.0[i].n == n + i
    ensures (forall i :: 0 <= i < |uses| ==> uses[i].Send?) ==>
      |r.0| == |uses| && forall i :: 0 <= i < |r.0| ==> r.0[i] == Sent(n + i)
    decreases |uses|
  {
    if |uses| == 0 then ([], n)
    else
      var (x, n1) := Tick(n, uses[0]);
      var (rest, n2) := Issue(n1, uses[1..]);
      ((if x.Some? then [x.value] else []) + rest, n2)
  }

  function Texts(clientId: string, xs: seq<Issued>): (ts: seq<string>)
    ensures |ts| == |xs| && forall i :: 0 <= i < |xs| ==> ts[i] == IdText(clientId, xs[i])
  {
    seq(|xs|, i requires 0 <= i < |xs| => IdText(clientId, xs[i]))
  }

  /** Ids issued at different counter values differ: a sent id contains a dash and a fallback
      id is all digits, and within each kind the decimal numerals differ. */
  lemma IdTextInjective(clientId: string, x: Issued, y: Issued)
    requires x.n != y.n
    ensures IdText(clientId, x) != IdText(clientId, y)
  {
    assert Decimal(x.n) != Decimal(y.n) by {
      assert DigitsValue(Decimal(x.n)) != DigitsValue(Decimal(y.n));
    }
    if x.Sent? && y.Sent? {
      var p := clientId + "-";
      assert (p + Decimal(x.n))[|p|..] == Decimal(x.n);
      assert (p + Decimal(y.n))[|p|..] == Decimal(y.n);
    } else if x.Sent? != y.Sent? {
      var sent := if x.Sent? then IdText(clientId, x) else IdText(clientId, y);
      var digits := if x.Sent? then Decimal(y.n) else Decimal(x.n);
      assert sent[|clientId|] == '-';
      assert !IsDigit(sent[|clientId|]);
      assert sent != digits;
    }
  }

  /** Between resets every id the counter issues is new: sent ids and fallback ids alike. */
  lemma IdsDistinct(clientId: string, n: nat, uses: seq<Use>)
    requires forall i :: 0 <= i < |uses| ==> !uses[i].Reset?
    ensures NoDup(Texts(clientId, Issue(n, uses).0))
  {
    var xs := Issue(n, uses).0;
    var ts := Texts(clientId, xs);
    forall i, j | 0 <= i < j < |ts|
      ensures ts[i] != ts[j]
    {
      IdTextInjective(clientId, xs[i], xs[j]);
    }
  }

  /** The ids a client sends between resets, `clientId-n` each, are pairwise distinct. */
  lemma SentIdsDistinct(clientId: string, n: nat, k: nat)
    ensures var uses := seq(k, _ => Send);
      && |Issue(n, uses).0| == k
      && (forall i :: 0 <= i < k ==> Texts(clientId, Issue(n, uses).0)[i] == clientId + "-" + Decimal(n + i))
      && NoDup(Texts(clientId, Issue(n, uses).0))
  {
    var uses: seq<Use> := seq(k, _ => Send);
    IdsDistinct(clientId, n, uses);
  }

  /** A reset lets the counter start over: the first message sent after leaving and rejoining
      gets the same id as the first message sent before. */
  lemma ResetRepeatsIds(clientId: string)
    ensures var xs := Issue(0, [Send, Reset, Send]).0;
      |xs| == 2 && IdText(clientId, xs[0]) == IdText(clientId, xs[1])
  {
    var r := Issue(0, [Send, Reset, Send]);
    assert [Send, Reset, Send][1..] == [Reset, Send];
    assert [Reset, Send][1..] == [Send];
    assert r.0 == [Sent(0), Sent(0)];
  }

  /** The numbering evidently intended: the counter runs on across a reset, because the client
      id it is paired with does not change when the user leaves and rejoins. */
  function IssueKept(n: nat, uses: seq<Use>): (r: (seq<Issued>, nat))
    ensures r.1 == n + |r.0| && forall i :: 0 <= i < |r.0| ==> r.0[i].n == n + i
    decreases |uses|
  {
    if |uses| == 0 then ([], n)
    else
      var (x, n1) := if uses[0].Reset? then (None, n) else Tick(n, uses[0]);
      var (rest, n2) := IssueKept(n1, uses[1..]);
      ((if x.Some? then [x.value] else []) + rest, n2)
  }

  /** Without resets the two numberings agree. */
  lemma {:induction false} IssueKeptAgrees(n: nat, uses: seq<Use>)
    requires forall i :: 0 <= i < |uses| ==> !uses[i].Reset?
    ensures IssueKept(n, uses) == Issue(n, uses)
    decreases |uses|
  {
    if |uses| > 0 {
      IssueKeptAgrees(Tick(n, uses[0]).1, uses[1..]);
    }
  }

  /** With the counter kept, every id issued over any run is new. */
  lemma KeptIdsDistinct(clientId: string, n: nat, uses: seq<Use>)
    ensures NoDup(Texts(clientId, IssueKept(n, uses).0))
  {
    var xs := IssueKept(n, uses).0;
    var ts := Texts(clientId, xs);
    forall i, j | 0 <= i < j < |ts|
      ensures ts[i] != ts[j]
    {
      IdTextInjective(clientId, xs[i], xs[j]);
    }
  }
}
