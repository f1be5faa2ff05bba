/** The grant's holder test as written (JavaScript truthiness of the holder id) against the
    intended one (any holder blocks), on a room whose holder registered the empty id. */
module Findings {
  import opened Js
  import opened Names
  import opened Shuffle
  import opened Protocol
  import opened Registry
  import opened Coordinator
  import opened Invariant

  /** A name `generateUsername` can produce. */
  const Saved: string := "CoolFox0000"

  /** One open socket registered under the empty id, alone in room `R` and holding the status,
      with its revert timer 0 pending. */
  const Held := Server(
    [Socket(Open, Str(""))],
    map["" := Client(0, SpecialName, Saved, "R", Some(0))],
    map["R" := Room([0], Some(""))],
    map[0 := Timeout("", Saved, "R")],
    1)

  /** Rooms, records and timers agree, and no socket is closed; only the empty id keeps the
      registry out of `Valid`. */
  lemma HeldConsistent()
    ensures Consistent(Held) && LiveMembers(Held) && !Valid(Held)
  {
    assert Registered(Held, 0);
    assert ClientOk(Held, "");
  }

  /** After the second grant: `Retardioo` saved as the name to restore, two timers pending. */
  const Twice := Server(
    [Socket(Open, Str(""))],
    map["" := Client(0, SpecialName, SpecialName, "R", Some(1))],
    map["R" := Room([0], Some(""))],
    map[0 := Timeout("", Saved, "R"), 1 := Timeout("", SpecialName, "R")],
    2)

  /** After the first timer: the saved name is back, but the second timer is still pending. */
  const Once := Server(
    [Socket(Open, Str(""))],
    map["" := Client(0, Saved, SpecialName, "R", None)],
    map["R" := Room([0], None)],
    map[1 := Timeout("", SpecialName, "R")],
    2)

  /** After the second timer: the special name is back for good. */
  const Stranded := Server(
    [Socket(Open, Str(""))],
    map["" := Client(0, SpecialName, SpecialName, "R", None)],
    map["R" := Room([0], None)],
    map[],
    2)

  /** The as-written test lets a second request through while the empty id holds the status;
      the second grant saves `Retardioo` as the name to restore and leaves the first timer
      pending, and rooms, records and timers no longer agree. */
  lemma AsWrittenGrantsTwice(pick: nat -> nat)
    requires PickInRange(pick)
    ensures !HolderBlocks(AsWritten, Held.rooms["R"])
    ensures RequestRetardioo(AsWritten, Held, 0, Str(""), pick).0 == Twice
    ensures !Consistent(Twice)
  {
    HeldConsistent();
    ConsistentResolvable(Held);
    assert ShuffleArray([0], pick) == [0];
    assert Registered(Held, 0) && ClientOf(Held, 0) == "";
    CrownHeld();
    assert !ClientOk(Twice, "");
  }

  lemma CrownHeld()
    ensures ListableRoom(Held, "R")
    ensures Crown(Held, "R", "") == Twice
  {
    assert Registered(Held, 0);
  }

  lemma TwiceResolvable()
    ensures Resolvable(Twice) && Resolvable(Once)
  {
    assert Registered(Twice, 0);
    assert Registered(Once, 0);
  }

  /** Both timers then fire, the first one first: the record ends with the special name, no
      timer and no holder, so nothing will ever restore its name. */
  lemma AsWrittenStrandsName()
    ensures Resolvable(Twice) && Resolvable(Once)
    ensures FireTimer(Twice, 0).0 == Once
    ensures FireTimer(Once, 1).0 == Stranded
    ensures Stranded.clients[""].username == SpecialName && Stranded.clients[""].timer.None? && Stranded.timers == map[]
  {
    TwiceResolvable();
    assert Uncrown(Twice, 0) == Once;
    assert Uncrown(Once, 1) == Stranded;
  }

  /** The corrected test refuses the same request and leaves the registry as it was. */
  lemma CorrectedRefuses(pick: nat -> nat)
    requires PickInRange(pick)
    ensures HolderBlocks(Corrected, Held.rooms["R"])
    ensures Resolvable(Held)
    ensures RequestRetardioo(Corrected, Held, 0, Str(""), pick) == (Held, [(0, RoomStatus(AlreadyHeldNotice))])
  {
    HeldConsistent();
    ConsistentResolvable(Held);
  }
}
