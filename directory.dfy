/**
 * The gateway's directory of reachable devices: ten slots, each holding a
 * device's logical number, its network address and the seconds since it was
 * last heard from. A slot whose number is 0 is free. Packets accepted from a
 * device upsert its slot; a once-a-second tick ages the slots and evicts a
 * device not heard from for more than 120 seconds.
 */
module Directory {
  import opened Bytes

  const DEV_LIST_MAX: nat := 10
  const MAX_TIME_UPDATE: nat := 120

  /** DEV_LIST: numb_dev, addr_dev, last_upd. */
  datatype Slot = Slot(numb: u16, addr: u16, lastUpd: u32)

  const EMPTY: Slot := Slot(0, 0, 0)

  /** The first slot holding number `numb`, or |t| when none does. */
  function IndexOf(t: seq<Slot>, numb: u16): (i: nat)
    ensures i <= |t|
    ensures forall j :: 0 <= j < i ==> t[j].numb != numb
    ensures i < |t| ==> t[i].numb == numb
  {
    if t == [] then 0 else if t[0].numb == numb then 0 else 1 + IndexOf(t[1..], numb)
  }

  /** Any index with the characterising properties is the one IndexOf finds. */
  lemma IndexOfUnique(t: seq<Slot>, numb: u16, i: nat)
    requires i <= |t|
    requires forall j :: 0 <= j < i ==> t[j].numb != numb
    requires i < |t| ==> t[i].numb == numb
    ensures IndexOf(t, numb) == i
  {
  }

  /** Non-zero device numbers occupy at most one slot each. */
  predicate Unique(t: seq<Slot>)
  {
    forall i, j :: 0 <= i < j < |t| && t[i].numb != 0 ==> t[i].numb != t[j].numb
  }

  /** Occupied slots carry an age within the eviction bound. */
  predicate AgesBounded(t: seq<Slot>)
  {
    forall i :: 0 <= i < |t| && t[i].numb != 0 ==> t[i].lastUpd <= MAX_TIME_UPDATE
  }

  // ---------------------------------------------------------------------
  // Upsert (CheckDevList) and lookup (DevGetAddr)
  // ---------------------------------------------------------------------

  /** The three ways CheckDevList can end. */
  datatype Outcome = Updated | Claimed | Full

  function UpsertOutcome(t: seq<Slot>, numb: u16): Outcome
  {
    if IndexOf(t, numb) < |t| then Updated
    else if IndexOf(t, 0) < |t| then Claimed
    else Full
  }

  /** The table after CheckDevList: the slot already holding `numb` gets the
   *  new address and age 0; otherwise the lowest free slot is claimed;
   *  with no free slot the table is unchanged. A call with number 0 matches
   *  the first free slot in the first scan and leaves it free. */
  function Upserted(t: seq<Slot>, numb: u16, addr: u16): seq<Slot>
  {
    var i := IndexOf(t, numb);
    if i < |t| then t[i := Slot(numb, addr, 0)]
    else
      var k := IndexOf(t, 0);
      if k < |t| then t[k := Slot(numb, addr, 0)] else t
  }

  /** The lookup DevGetAddr performs: the address of the first slot holding
   *  `numb`, 0 when there is none, and 0 for number 0 without a search. */
  function AddrOf(t: seq<Slot>, numb: u16): (r: u16)
    ensures numb == 0 ==> r == 0
    ensures r != 0 ==> exists i :: 0 <= i < |t| && t[i].numb == numb && t[i].addr == r
    ensures (forall i :: 0 <= i < |t| ==> t[i].numb != numb) ==> r == 0
  {
    if numb == 0 then 0
    else
      var i := IndexOf(t, numb);
      if i < |t| then t[i].addr else 0
  }

  /** With unique numbers, the lookup returns the address of the one slot
   *  holding the number. */
  lemma LookupFindsSlot(t: seq<Slot>, i: nat)
    requires Unique(t) && i < |t| && t[i].numb != 0
    ensures AddrOf(t, t[i].numb) == t[i].addr
  {
    IndexOfUnique(t, t[i].numb, i);
  }

  /** The table keeps its size under every upsert. */
  lemma UpsertKeepsSize(t: seq<Slot>, numb: u16, addr: u16)
    ensures |Upserted(t, numb, addr)| == |t|
  {
  }

  /** CheckDevList never lets a number occupy two slots. */
  lemma UpsertKeepsUnique(t: seq<Slot>, numb: u16, addr: u16)
    requires Unique(t)
    ensures Unique(Upserted(t, numb, addr))
  {
    var u := Upserted(t, numb, addr);
    var i := IndexOf(t, numb);
    if i >= |t| {
      var k := IndexOf(t, 0);
      if k < |t| {
        forall a, b | 0 <= a < b < |u| && u[a].numb != 0
          ensures u[a].numb != u[b].numb
        {
          if a == k {
            assert u[b] == t[b];
          } else if b == k {
            assert u[a] == t[a];
          } else {
            assert u[a] == t[a] && u[b] == t[b];
          }
        }
      }
    }
  }

  /** An upsert followed by a lookup of the same non-zero number yields the
   *  new address, unless the table was full. */
  lemma UpsertThenLookup(t: seq<Slot>, numb: u16, addr: u16)
    requires numb != 0 && UpsertOutcome(t, numb) != Full
    ensures AddrOf(Upserted(t, numb, addr), numb) == addr
  {
    var u := Upserted(t, numb, addr);
    var i := IndexOf(t, numb);
    if i < |t| {
      IndexOfUnique(u, numb, i);
    } else {
      IndexOfUnique(u, numb, IndexOf(t, 0));
    }
  }

  /** An upsert changes no other device's lookup. */
  lemma UpsertLeavesOthers(t: seq<Slot>, numb: u16, addr: u16, other: u16)
    requires other != numb && other != 0
    ensures AddrOf(Upserted(t, numb, addr), other) == AddrOf(t, other)
  {
    var u := Upserted(t, numb, addr);
    var j := IndexOf(t, other);
    assert |u| == |t|;
    assert forall x :: 0 <= x < |t| && t[x].numb == other ==> u[x] == t[x];
    IndexOfUnique(u, other, j);
  }

  /** The table is full for `numb` exactly when every slot is taken by some
   *  other number, and then nothing changes. */
  lemma UpsertFull(t: seq<Slot>, numb: u16, addr: u16)
    ensures UpsertOutcome(t, numb) == Full
        <==> (forall i :: 0 <= i < |t| ==> t[i].numb != numb && t[i].numb != 0)
    ensures UpsertOutcome(t, numb) == Full ==> Upserted(t, numb, addr) == t
  {
  }

  /** An upsert keeps every age within the bound, and the upserted device
   *  is present with the new address and age 0 unless the table was full. */
  lemma UpsertKeepsAgesBounded(t: seq<Slot>, numb: u16, addr: u16)
    requires AgesBounded(t)
    ensures AgesBounded(Upserted(t, numb, addr))
    ensures numb != 0 && UpsertOutcome(t, numb) != Full ==>
              exists i :: 0 <= i < |t| && Upserted(t, numb, addr)[i] == Slot(numb, addr, 0)
  {
    if numb != 0 && UpsertOutcome(t, numb) != Full {
      var i := IndexOf(t, numb);
      var k := if i < |t| then i else IndexOf(t, 0);
      assert Upserted(t, numb, addr)[k] == Slot(numb, addr, 0);
    }
  }

  // ---------------------------------------------------------------------
  // Aging (DevListUpd)
  // ---------------------------------------------------------------------

  /** One tick for one slot: the 32-bit age goes up by one and a slot older
   *  than 120 seconds is cleared. */
  function Age(s: Slot): (r: Slot)
  {
    var u := Inc32(s.lastUpd);
    if u > MAX_TIME_UPDATE then EMPTY else s.(lastUpd := u)
  }

  /** The table after DevListUpd as written: the loop runs while the slot it
   *  is at is occupied, so only the slots before the first free one age. */
  function AgedPrefix(t: seq<Slot>): seq<Slot>
  {
    var h := IndexOf(t, 0);
    seq(|t|, i requires 0 <= i < |t| => if i < h then Age(t[i]) else t[i])
  }

  /** The table after aging every occupied slot, which the eviction rule
   *  evidently intends. */
  function AgedAll(t: seq<Slot>): seq<Slot>
  {
    seq(|t|, i requires 0 <= i < |t| => if t[i].numb != 0 then Age(t[i]) else t[i])
  }

  /** `n` ticks of the as-written aging. */
  function AgedPrefixN(t: seq<Slot>, n: nat): (r: seq<Slot>)
    ensures |r| == |t|
  {
    if n == 0 then t else AgedPrefix(AgedPrefixN(t, n - 1))
  }

  /** `n` ticks of the corrected aging. */
  function AgedAllN(t: seq<Slot>, n: nat): (r: seq<Slot>)
    ensures |r| == |t|
  {
    if n == 0 then t else AgedAll(AgedAllN(t, n - 1))
  }

  /** Aging every slot bounds every age and never duplicates a number. */
  lemma AgedAllKeepsInvariants(t: seq<Slot>)
    requires Unique(t)
    ensures Unique(AgedAll(t)) && AgesBounded(AgedAll(t))
  {
  }

  /** The as-written tick keeps the same invariants. */
  lemma AgedPrefixKeepsInvariants(t: seq<Slot>)
    requires Unique(t) && AgesBounded(t)
    ensures Unique(AgedPrefix(t)) && AgesBounded(AgedPrefix(t))
  {
  }

  /** With the corrected tick a device not refreshed is on schedule: after
   *  `n` ticks with age + n within the bound it is still present, aged by n. */
  lemma {:induction false} AgedAllOnSchedule(t: seq<Slot>, i: nat, n: nat)
    requires i < |t| && t[i].numb != 0 && t[i].lastUpd + n <= MAX_TIME_UPDATE
    ensures |AgedAllN(t, n)| == |t|
    ensures AgedAllN(t, n)[i] == t[i].(lastUpd := t[i].lastUpd + n)
  {
    if n > 0 {
      AgedAllOnSchedule(t, i, n - 1);
    }
  }

  /** With the corrected tick every device not refreshed is evicted exactly
   *  when its age would pass 120 seconds. */
  lemma EvictedWithin(t: seq<Slot>, i: nat)
    requires i < |t| && t[i].numb != 0 && t[i].lastUpd <= MAX_TIME_UPDATE
    ensures AgedAllN(t, MAX_TIME_UPDATE + 1 - t[i].lastUpd)[i] == EMPTY
  {
    var n := MAX_TIME_UPDATE - t[i].lastUpd;
    AgedAllOnSchedule(t, i, n);
  }

  /** The table used to show the hole: device 5 is about to expire and
   *  device 7 sits right after it. */
  const HOLE_BEFORE: seq<Slot> := [Slot(5, 1, 120), Slot(7, 2, 0)] + seq(8, _ => EMPTY)

  /** The table after one as-written tick: device 5 evicted, a hole before 7. */
  const HOLE_AFTER: seq<Slot> := [EMPTY, Slot(7, 2, 1)] + seq(8, _ => EMPTY)

  /** Counterexample to the eviction rule as written: once slot 0 has been
   *  evicted, no later tick ages slot 1, so device 7 is never evicted
   *  although it is never heard from again. */
  lemma {:induction false} AsWrittenNeverEvicts(n: nat)
    ensures AgedPrefix(HOLE_BEFORE) == HOLE_AFTER
    ensures AgedPrefixN(HOLE_AFTER, n) == HOLE_AFTER
    ensures HOLE_AFTER[1].numb == 7
  {
    assert IndexOf(HOLE_BEFORE, 0) == 2 by {
      IndexOfUnique(HOLE_BEFORE, 0, 2);
    }
    assert IndexOf(HOLE_AFTER, 0) == 0;
    assert AgedPrefix(HOLE_AFTER) == HOLE_AFTER;
    if n > 0 {
      AsWrittenNeverEvicts(n - 1);
    }
  }

  /** The corrected tick does evict device 7 from the same table. */
  lemma CorrectedEvictsFromHole()
    ensures AgedAllN(HOLE_AFTER, MAX_TIME_UPDATE)[1] == EMPTY
  {
    EvictedWithin(HOLE_AFTER, 1);
  }

  // ---------------------------------------------------------------------
  // The static table
  // ---------------------------------------------------------------------

  /** The static `dev_list[]`. */
  class DevList {
    const slots: array<Slot>

    ghost predicate Valid()
      reads this
    {
      slots.Length == DEV_LIST_MAX
    }

    /** Zero-initialised static storage. */
    constructor ()
      ensures Valid() && fresh(slots)
      ensures slots[..] == seq(DEV_LIST_MAX, _ => EMPTY)
    {
      slots := new Slot[DEV_LIST_MAX](_ => EMPTY);
    }

    /** DevGetAddr: the lookup over the table's slots. */
    method DevGetAddr(numb: u16) returns (r: u16)
      requires Valid()
      ensures r == AddrOf(slots[..], numb)
    {
      if numb == 0 {
        return 0;
      }
      var i := 0;
      while i < slots.Length
        invariant 0 <= i <= slots.Length
        invariant forall j :: 0 <= j < i ==> slots[j].numb != numb
      {
        if slots[i].numb == numb {
          IndexOfUnique(slots[..], numb, i);
          return slots[i].addr;
        }
        i := i + 1;
      }
      IndexOfUnique(slots[..], numb, slots.Length);
      return 0;
    }

    /** CheckDevList: true (SUCCESS) unless the table is full for `numb`. */
    method CheckDevList(numb: u16, addr: u16) returns (ok: bool)
      requires Valid()
      modifies slots
      ensures slots[..] == Upserted(old(slots[..]), numb, addr)
      ensures ok <==> UpsertOutcome(old(slots[..]), numb) != Full
    {
      var i := 0;
      while i < slots.Length
        invariant 0 <= i <= slots.Length
        invariant forall j :: 0 <= j < i ==> slots[j].numb != numb
      {
        if slots[i].numb == numb {
          IndexOfUnique(slots[..], numb, i);
          slots[i] := Slot(numb, addr, 0);
          return true;
        }
        i := i + 1;
      }
      IndexOfUnique(slots[..], numb, slots.Length);
      i := 0;
      while i < slots.Length
        invariant 0 <= i <= slots.Length
        invariant forall j :: 0 <= j < i ==> slots[j].numb != 0
      {
        if slots[i].numb == 0 {
          IndexOfUnique(slots[..], 0, i);
          slots[i] := Slot(numb, addr, 0);
          return true;
        }
        i := i + 1;
      }
      IndexOfUnique(slots[..], 0, slots.Length);
      return false;
    }

    /** DevListUpd as written: ages slots until the first free one. */
    method DevListUpd()
      requires Valid()
      modifies slots
      ensures slots[..] == AgedPrefix(old(slots[..]))
    {
      ghost var t := slots[..];
      var i := 0;
      while i < slots.Length && slots[i].numb != 0
        invariant 0 <= i <= slots.Length
        invariant forall j :: 0 <= j < i ==> t[j].numb != 0
        invariant forall j :: 0 <= j < slots.Length ==> slots[j] == if j < i then Age(t[j]) else t[j]
      {
        var u := Inc32(slots[i].lastUpd);
        slots[i] := slots[i].(lastUpd := u);
        if slots[i].lastUpd > MAX_TIME_UPDATE {
          slots[i] := EMPTY;
        }
        i := i + 1;
      }
      IndexOfUnique(t, 0, i);
    }

    /** The corrected tick: every occupied slot ages. */
    method DevListUpdAll()
      requires Valid()
      modifies slots
      ensures slots[..] == AgedAll(old(slots[..]))
    {
      ghost var t := slots[..];
      var i := 0;
      while i < slots.Length
        invariant 0 <= i <= slots.Length
        invariant forall j :: 0 <= j < slots.Length ==>
          slots[j] == if j < i && t[j].numb != 0 then Age(t[j]) else t[j]
      {
        if slots[i].numb != 0 {
          var u := Inc32(slots[i].lastUpd);
          slots[i] := slots[i].(lastUpd := u);
          if slots[i].lastUpd > MAX_TIME_UPDATE {
            slots[i] := EMPTY;
          }
        }
        i := i + 1;
      }
    }

    /** DevListClr: every slot free, address and age zero. */
    method DevListClr()
      requires Valid()
      modifies slots
      ensures slots[..] == seq(DEV_LIST_MAX, _ => EMPTY)
    {
      var i := 0;
      while i < slots.Length
        invariant 0 <= i <= slots.Length
        invariant forall j :: 0 <= j < i ==> slots[j] == EMPTY
      {
        slots[i] := EMPTY;
        i := i + 1;
      }
    }
  }
}
