/** The RPC slot table of a dial-out device: an int16 bitmap beside an array (dialout.go). */
module DialoutSlots {
  import opened Text

  const MAX_RPCS: nat := 16

  type Word = bv16

  /** int16(1) << i, sign bit included. */
  function Mask(i: nat): (m: Word)
    requires i < MAX_RPCS
    ensures m == 1 << i
  {
    if i == 0 then 0x1 else if i == 1 then 0x2 else if i == 2 then 0x4 else if i == 3 then 0x8
    else if i == 4 then 0x10 else if i == 5 then 0x20 else if i == 6 then 0x40 else if i == 7 then 0x80
    else if i == 8 then 0x100 else if i == 9 then 0x200 else if i == 10 then 0x400 else if i == 11 then 0x800
    else if i == 12 then 0x1000 else if i == 13 then 0x2000 else if i == 14 then 0x4000 else 0x8000
  }

  /** The three operations on the bitmap: test, |= and &^. */
  function And(w: Word, m: Word): Word {
    w & m
  }

  function Or(w: Word, m: Word): Word {
    w | m
  }

  function AndNot(w: Word, m: Word): Word {
    w & !m
  }

  predicate Bit(w: Word, i: nat)
    requires i < MAX_RPCS
  {
    And(w, Mask(i)) != 0
  }

  lemma MasksDisjoint(i: nat, j: nat)
    requires i < MAX_RPCS && j < MAX_RPCS && i != j
    ensures And(Mask(i), Mask(j)) == 0
  {
  }

  lemma MaskNonZero(i: nat)
    requires i < MAX_RPCS
    ensures Mask(i) != 0
  {
  }

  lemma OtherSet(w: Word, m: Word, n: Word)
    requires And(m, n) == 0
    ensures And(Or(w, m), n) == And(w, n)
  {
  }

  lemma OtherCleared(w: Word, m: Word, n: Word)
    requires And(m, n) == 0
    ensures And(AndNot(w, m), n) == And(w, n)
  {
  }

  lemma SameBit(w: Word, m: Word)
    ensures And(Or(w, m), m) == m && And(AndNot(w, m), m) == 0
  {
  }

  /** Setting or clearing one bit of the map leaves all others alone. */
  lemma ChangeBit(w: Word, i: nat, j: nat)
    requires i < MAX_RPCS && j < MAX_RPCS
    ensures Bit(Or(w, Mask(i)), j) <==> i == j || Bit(w, j)
    ensures Bit(AndNot(w, Mask(i)), j) <==> i != j && Bit(w, j)
  {
    hide Mask;
    hide And;
    hide Or;
    hide AndNot;
    if i == j {
      MaskNonZero(i);
      SameBit(w, Mask(i));
    } else {
      MasksDisjoint(i, j);
      OtherSet(w, Mask(i), Mask(j));
      OtherCleared(w, Mask(i), Mask(j));
    }
  }

  // ---------- what the operations do to the set of taken slots ----------

  /** Slots 1 to 15 are for all RPCs but the dial-out subscriber, which always has slot 0. */
  predicate IsLowestFree(taken: set<nat>, i: nat) {
    1 <= i < MAX_RPCS && i !in taken && forall j :: 1 <= j < i ==> j in taken
  }

  predicate AllTaken(taken: set<nat>) {
    forall j :: 1 <= j < MAX_RPCS ==> j in taken
  }

  /** getUnusedRpcId: an id is one more than its slot. */
  method GetUnusedRpcId(ids: Word, subscriber: bool) returns (id: Option<nat>)
    ensures subscriber ==> id == Some(1)
    ensures !subscriber ==> (id.None? <==> forall j :: 1 <= j < MAX_RPCS ==> Bit(ids, j))
    ensures !subscriber && id.Some? ==>
              2 <= id.value <= MAX_RPCS && !Bit(ids, id.value - 1) && forall j :: 1 <= j < id.value - 1 ==> Bit(ids, j)
  {
    hide Mask;
    hide And;
    if subscriber {
      return Some(1);
    }
    var i := 1;
    while true
      invariant 1 <= i <= MAX_RPCS
      invariant forall j :: 1 <= j < i ==> Bit(ids, j)
      decreases MAX_RPCS - i
    {
      if i >= MAX_RPCS {
        return None;
      }
      if And(ids, Mask(i)) == 0 {
        break;
      }
      i := i + 1;
    }
    assert !Bit(ids, i);
    id := Some(i + 1);
  }

  datatype Config = Config(text: string)

  class RpcInfo {
    const subscriber: bool
    const rpcId: nat
    var running: bool
    var cfgChannel: seq<Config>
    var config: Option<Config>

    constructor (subscriber: bool, rpcId: nat)
      ensures this.subscriber == subscriber && this.rpcId == rpcId
      ensures !running && cfgChannel == [] && config == None
    {
      this.subscriber, this.rpcId := subscriber, rpcId;
      running, cfgChannel, config := false, [], None;
    }
  }

  class DeviceInfo {
    var rpcIdSpace: Word
    const rpcs: array<RpcInfo?>

    /** Bit i is set exactly when slot i is occupied, and the occupant's id is i + 1. */
    ghost predicate Valid()
      reads this, rpcs
    {
      && rpcs.Length == MAX_RPCS
      && (forall i :: 0 <= i < MAX_RPCS ==> (Bit(rpcIdSpace, i) <==> rpcs[i] != null))
      && (forall i :: 0 <= i < MAX_RPCS && rpcs[i] != null ==> rpcs[i].rpcId == i + 1)
    }

    ghost function Taken(): set<nat>
      requires rpcs.Length == MAX_RPCS
      reads this, rpcs
    {
      set i: nat | i < MAX_RPCS && rpcs[i] != null
    }

    constructor ()
      ensures Valid() && fresh(rpcs) && Taken() == {}
    {
      rpcIdSpace := 0;
      rpcs := new RpcInfo?[16](_ => null);
      new;
      forall i | 0 <= i < MAX_RPCS ensures !Bit(rpcIdSpace, i) {
        NoBits(Mask(i));
      }
    }

    /** createOrUpdateDeviceWithNewRpc: an occupied slot 0 is used again, a free slot gets a new record. */
    method Allocate(subscriber: bool) returns (rpc: RpcInfo?)
      requires Valid()
      modifies this, rpcs
      ensures Valid()
      ensures rpc == null <==> !subscriber && AllTaken(old(Taken()))
      ensures rpc == null ==> forall i :: 0 <= i < MAX_RPCS ==> rpcs[i] == old(rpcs[i])
      ensures rpc != null ==> 1 <= rpc.rpcId <= MAX_RPCS && rpcs[rpc.rpcId - 1] == rpc
      ensures rpc != null ==> if subscriber then rpc.rpcId == 1 else IsLowestFree(old(Taken()), rpc.rpcId - 1)
      ensures rpc != null ==> var k := rpc.rpcId - 1; rpc == old(rpcs[k]) || (old(rpcs[k]) == null && fresh(rpc))
      ensures rpc != null ==> forall i :: 0 <= i < MAX_RPCS && i != rpc.rpcId - 1 ==> rpcs[i] == old(rpcs[i])
      ensures rpc != null ==> Enabled(old(Taken()), Take(rpc.rpcId - 1))
      ensures rpc != null ==> Taken() == Step(old(Taken()), Take(rpc.rpcId - 1))
    {
      hide Mask;
      hide And;
      hide Or;
      hide AndNot;
      var id := GetUnusedRpcId(rpcIdSpace, subscriber);
      assert forall j: nat :: j < MAX_RPCS ==> (j in Taken() <==> Bit(rpcIdSpace, j));
      if id.None? {
        return null;
      }
      var k := id.value - 1;
      assert !subscriber ==> k !in Taken();
      forall j | 0 <= j < MAX_RPCS ensures Bit(Or(rpcIdSpace, Mask(k)), j) <==> k == j || Bit(rpcIdSpace, j) {
        ChangeBit(rpcIdSpace, k, j);
      }
      rpcIdSpace := Or(rpcIdSpace, Mask(k));
      rpc := rpcs[k];
      if rpcs[k] == null {
        rpc := new RpcInfo(subscriber, id.value);
        rpcs[k] := rpc;
      }
    }

    /** removeRpcFromDevice: clears the bit and the slot numbered by the id itself, one above the slot of the record. */
    method Release(rpc: RpcInfo)
      requires Valid() && rpc.rpcId < MAX_RPCS
      modifies this, rpcs
      ensures Valid()
      ensures rpcs[rpc.rpcId] == null
      ensures forall i :: 0 <= i < MAX_RPCS && i != rpc.rpcId ==> rpcs[i] == old(rpcs[i])
      ensures Taken() == Step(old(Taken()), Give(rpc.rpcId))
    {
      hide Mask;
      hide And;
      hide Or;
      hide AndNot;
      var k := rpc.rpcId;
      forall j | 0 <= j < MAX_RPCS ensures Bit(AndNot(rpcIdSpace, Mask(k)), j) <==> k != j && Bit(rpcIdSpace, j) {
        ChangeBit(rpcIdSpace, k, j);
      }
      rpcIdSpace := AndNot(rpcIdSpace, Mask(k));
      rpcs[k] := null;
    }
  }

  lemma NoBits(m: Word)
    ensures And(0, m) == 0
  {
  }

  // ---------- runs of operations on the set of taken slots ----------

  datatype Op = Take(slot: nat) | Give(id: nat)

  /** Take is Allocate's choice of a slot; Give is Release of a record, whether or not it still sits in its slot. */
  predicate Enabled(taken: set<nat>, op: Op) {
    match op
    case Take(slot) => slot == 0 || IsLowestFree(taken, slot)
    case Give(id) => 1 <= id < MAX_RPCS
  }

  function Step(taken: set<nat>, op: Op): set<nat> {
    match op
    case Take(slot) => taken + {slot}
    case Give(id) => taken - {id}
  }

  ghost predicate IsRun(states: seq<set<nat>>, ops: seq<Op>) {
    && |states| == |ops| + 1
    && forall i :: 0 <= i < |ops| ==> Enabled(states[i], ops[i]) && states[i + 1] == Step(states[i], ops[i])
  }

  /** Over every run, the subscriber's slot stays taken once it is, releases included. */
  lemma {:induction false} SlotZeroStays(states: seq<set<nat>>, ops: seq<Op>, i: nat, j: nat)
    requires IsRun(states, ops) && i <= j < |states| && 0 in states[i]
    ensures 0 in states[j]
  {
    if i < j {
      SlotZeroStays(states, ops, i, j - 1);
      assert Enabled(states[j - 1], ops[j - 1]);
    }
  }

  /**
   A release undoes the allocation of the same id exactly when the slot was taken before and the one above was free.
   */
  lemma ReleaseUndoesIff(taken: set<nat>, slot: nat)
    requires slot + 1 < MAX_RPCS
    ensures Step(Step(taken, Take(slot)), Give(slot + 1)) == taken <==> slot in taken && slot + 1 !in taken
  {
    var after := Step(Step(taken, Take(slot)), Give(slot + 1));
    assert slot in after && slot + 1 !in after;
    if slot in taken && slot + 1 !in taken {
      assert after == taken;
    }
  }
}
