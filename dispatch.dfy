/**
 * What one tag read does to the hand in play (main.py, Application.handle_uid),
 * stated on values: the nine slots in fill order and the set of tag UIDs
 * already consumed this hand. The class in module Tracker is proved to follow it.
 */
module Dispatch {
  import opened Wrappers
  import opened Cards
  import opened Layout

  /** The part of the table state a tag read touches. */
  datatype Hand = Hand(slots: seq<Card>, seen: set<string>)

  /** The hand at the start of a session and after every clear. */
  function EmptyHand(): (h: Hand)
    ensures |h.slots| == SlotCount && h.seen == {}
    ensures forall k :: 0 <= k < |h.slots| ==> h.slots[k] == Empty
  {
    Hand(seq(SlotCount, k => Empty), {})
  }

  /** The card a UID stands for: its registry entry, or the empty marker when it has none. */
  function Resolve(db: map<string, Card>, uid: string): (c: Card)
    ensures uid in db ==> c == db[uid]
    ensures c != Empty ==> uid in db
  {
    if uid in db then db[uid] else Empty
  }

  /** Every slot holds something other than the empty marker. */
  predicate Full(s: seq<Card>)
  {
    forall j :: 0 <= j < |s| ==> s[j] != Empty
  }

  /** The first slot, in fill order, that holds the empty marker. */
  function FirstEmpty(s: seq<Card>): (r: Option<nat>)
    ensures r.Some? ==> r.value < |s| && s[r.value] == Empty
    ensures r.Some? ==> forall j :: 0 <= j < r.value ==> s[j] != Empty
    ensures r.None? <==> Full(s)
  {
    if |s| == 0 then None
    else if s[0] == Empty then Some(0)
    else match FirstEmpty(s[1..])
      case None => None
      case Some(k) => Some(k + 1)
  }

  /** The number of occupied slots. */
  function Filled(s: seq<Card>): (n: nat)
    ensures n <= |s|
  {
    if |s| == 0 then 0
    else (if s[0] != Empty then 1 else 0) + Filled(s[1..])
  }

  /** Occupied slots form a prefix of the fill order: no card sits after an empty slot. */
  predicate FilledPrefix(s: seq<Card>)
  {
    forall i, j :: 0 <= i < j < |s| && s[j] != Empty ==> s[i] != Empty
  }

  /** What every reachable hand satisfies: nine slots, filled in order, each filled slot paid for by a distinct UID. */
  predicate HandInvariant(h: Hand)
  {
    |h.slots| == SlotCount && FilledPrefix(h.slots) && Filled(h.slots) <= |h.seen|
  }

  /**
   * One tag read. A UID already consumed this hand changes nothing. Otherwise
   * the card it resolves to goes into the first empty slot and the UID is
   * consumed; when no slot is empty the read is dropped and the UID is not consumed.
   */
  function Handle(h: Hand, db: map<string, Card>, uid: string): (r: Hand)
    ensures |r.slots| == |h.slots|
  {
    if uid in h.seen then h
    else match FirstEmpty(h.slots)
      case None => h
      case Some(k) => Hand(h.slots[k := Resolve(db, uid)], h.seen + {uid})
  }

  /** The hand after the reads `uids`, in order. */
  function Replay(h: Hand, db: map<string, Card>, uids: seq<string>): (r: Hand)
    ensures |r.slots| == |h.slots|
  {
    if |uids| == 0 then h
    else Handle(Replay(h, db, uids[..|uids| - 1]), db, uids[|uids| - 1])
  }

  // ---------------------------------------------------------------- one read

  /** A re-read of a consumed UID changes nothing. */
  lemma SeenIsNoop(h: Hand, db: map<string, Card>, uid: string)
    requires uid in h.seen
    ensures Handle(h, db, uid) == h
  {
  }

  /** A read while the table is full changes nothing, and raises nothing. */
  lemma FullIsNoop(h: Hand, db: map<string, Card>, uid: string)
    requires Full(h.slots)
    ensures Handle(h, db, uid) == h
  {
  }

  /**
   * A fresh UID writes its card into slot `k` when `k` is empty and every
   * earlier slot is occupied, leaves every other slot as it was, and is consumed.
   */
  lemma FillsFirstEmpty(h: Hand, db: map<string, Card>, uid: string, k: nat)
    requires uid !in h.seen
    requires k < |h.slots| && h.slots[k] == Empty
    requires forall j :: 0 <= j < k ==> h.slots[j] != Empty
    ensures Handle(h, db, uid).slots == h.slots[k := if uid in db then db[uid] else Empty]
    ensures Handle(h, db, uid).seen == h.seen + {uid}
  {
  }

  /** An occupied slot is never overwritten by a read. */
  lemma WriteOnce(h: Hand, db: map<string, Card>, uid: string, j: nat)
    requires j < |h.slots| && h.slots[j] != Empty
    ensures Handle(h, db, uid).slots[j] == h.slots[j]
  {
  }

  /** A read changes at most one slot. */
  lemma AtMostOneSlot(h: Hand, db: map<string, Card>, uid: string, i: nat, j: nat)
    requires i < |h.slots| && j < |h.slots|
    requires Handle(h, db, uid).slots[i] != h.slots[i]
    requires Handle(h, db, uid).slots[j] != h.slots[j]
    ensures i == j
  {
  }

  /** The UID is consumed exactly when a slot is written, which is when it is fresh and the table is not full. */
  lemma ConsumedIffPlaced(h: Hand, db: map<string, Card>, uid: string)
    ensures Handle(h, db, uid).seen == if uid !in h.seen && !Full(h.slots) then h.seen + {uid} else h.seen
    ensures uid in Handle(h, db, uid).seen <==> uid in h.seen || !Full(h.slots)
  {
  }

  /**
   * An unregistered UID stores the empty marker, so the slots do not change and
   * the next tag lands in the same slot; the UID is consumed all the same.
   */
  lemma UnregisteredLeavesSlotOpen(h: Hand, db: map<string, Card>, uid: string)
    requires uid !in h.seen && uid !in db && !Full(h.slots)
    ensures Handle(h, db, uid).slots == h.slots
    ensures Handle(h, db, uid).seen == h.seen + {uid}
    ensures FirstEmpty(Handle(h, db, uid).slots) == FirstEmpty(h.slots)
  {
  }

  /** Reading the same tag twice in a row is the same as reading it once. */
  lemma HandleIdempotent(h: Hand, db: map<string, Card>, uid: string)
    ensures Handle(Handle(h, db, uid), db, uid) == Handle(h, db, uid)
  {
  }

  /** A table of empty markers has no occupied slot. */
  lemma {:induction false} FilledNone(s: seq<Card>)
    requires forall k :: 0 <= k < |s| ==> s[k] == Empty
    ensures Filled(s) == 0
  {
    if |s| > 0 {
      FilledNone(s[1..]);
    }
  }

  /** Every slot is occupied exactly when the count of occupied slots is the number of slots. */
  lemma {:induction false} FilledAllIffFull(s: seq<Card>)
    ensures Filled(s) == |s| <==> Full(s)
  {
    if |s| > 0 {
      FilledAllIffFull(s[1..]);
      if Full(s) {
        assert Full(s[1..]);
      } else if Full(s[1..]) {
        assert s[0] == Empty;
      }
    }
  }

  /** Writing a card into an empty slot raises the count of occupied slots by one, or by none for the empty marker. */
  lemma {:induction false} FilledWrite(s: seq<Card>, k: nat, c: Card)
    requires k < |s| && s[k] == Empty
    ensures Filled(s[k := c]) == Filled(s) + (if c != Empty then 1 else 0)
  {
    if k > 0 {
      FilledWrite(s[1..], k - 1, c);
      assert s[k := c][1..] == s[1..][k - 1 := c];
    } else {
      assert s[k := c][1..] == s[1..];
    }
  }

  /** Every read keeps the hand invariant. */
  lemma HandleKeepsInvariant(h: Hand, db: map<string, Card>, uid: string)
    requires HandInvariant(h)
    ensures HandInvariant(Handle(h, db, uid))
  {
    if uid !in h.seen && FirstEmpty(h.slots).Some? {
      var k := FirstEmpty(h.slots).value;
      var c := Resolve(db, uid);
      FilledWrite(h.slots, k, c);
      assert FilledPrefix(h.slots[k := c]);
    }
  }

  /** The starting hand satisfies the hand invariant. */
  lemma EmptyHandInvariant()
    ensures HandInvariant(EmptyHand())
  {
    FilledNone(EmptyHand().slots);
  }

  /** The cleared layout, read in fill order, is the empty hand, and it satisfies the hand invariant. */
  lemma EmptyLayoutHand()
    ensures Hand(Flatten(EmptyLayout()), {}) == EmptyHand()
    ensures HandInvariant(Hand(Flatten(EmptyLayout()), {}))
  {
    EmptyHandInvariant();
  }

  // ------------------------------------------------------- sequences of reads

  /** Once a slot is occupied, no later read in the hand changes it. */
  lemma {:induction false} ReplayWriteOnce(h: Hand, db: map<string, Card>, uids: seq<string>, j: nat)
    requires j < |h.slots| && h.slots[j] != Empty
    ensures Replay(h, db, uids).slots[j] == h.slots[j]
  {
    if |uids| > 0 {
      var before := Replay(h, db, uids[..|uids| - 1]);
      ReplayWriteOnce(h, db, uids[..|uids| - 1], j);
      WriteOnce(before, db, uids[|uids| - 1], j);
    }
  }

  /** Once a UID is consumed or the table is full, that stays so for the rest of the hand. */
  lemma {:induction false} ConsumedOrFullPersists(h: Hand, db: map<string, Card>, uids: seq<string>, uid: string)
    requires uid in h.seen || Full(h.slots)
    ensures uid in Replay(h, db, uids).seen || Full(Replay(h, db, uids).slots)
  {
    if |uids| > 0 {
      var before := Replay(h, db, uids[..|uids| - 1]);
      ConsumedOrFullPersists(h, db, uids[..|uids| - 1], uid);
      if Full(before.slots) {
        FullIsNoop(before, db, uids[|uids| - 1]);
      }
    }
  }

  /** The reads one after another, in two batches. */
  lemma {:induction false} ReplayAppend(h: Hand, db: map<string, Card>, xs: seq<string>, ys: seq<string>)
    ensures Replay(h, db, xs + ys) == Replay(Replay(h, db, xs), db, ys)
  {
    if |ys| > 0 {
      assert (xs + ys)[..|xs + ys| - 1] == xs + ys[..|ys| - 1];
      assert (xs + ys)[|xs + ys| - 1] == ys[|ys| - 1];
      ReplayAppend(h, db, xs, ys[..|ys| - 1]);
    } else {
      assert xs + ys == xs;
    }
  }

  /** A tag delivered again later in the hand, by either reader, has no effect the second time. */
  lemma RedeliveryIsNoop(h: Hand, db: map<string, Card>, before: seq<string>, uid: string, between: seq<string>)
    ensures Replay(h, db, before + [uid] + between + [uid]) == Replay(h, db, before + [uid] + between)
  {
    var first := Replay(h, db, before + [uid]);
    assert (before + [uid])[..|before + [uid]| - 1] == before;
    ConsumedOrFullPersists(first, db, between, uid);
    ReplayAppend(h, db, before + [uid], between);
    var mid := Replay(h, db, before + [uid] + between);
    var all := before + [uid] + between + [uid];
    assert all[..|all| - 1] == before + [uid] + between;
  }

  /** The UIDs occurring in a batch of reads. */
  function TagSet(uids: seq<string>): set<string>
  {
    set u | u in uids
  }

  /** The UIDs are pairwise distinct. */
  predicate Distinct(uids: seq<string>)
  {
    forall i, j :: 0 <= i < j < |uids| ==> uids[i] != uids[j]
  }

  /** Each UID is registered to a real card, not to the empty marker. */
  predicate AllRegistered(db: map<string, Card>, uids: seq<string>)
  {
    forall i :: 0 <= i < |uids| ==> uids[i] in db && db[uids[i]] != Empty
  }

  /** A fresh tag registered to a real card, read while a slot is free, takes exactly one slot. */
  lemma FreshTagTakesSlot(h: Hand, db: map<string, Card>, uid: string)
    requires uid !in h.seen && uid in db && db[uid] != Empty
    requires Filled(h.slots) < |h.slots|
    ensures Filled(Handle(h, db, uid).slots) == Filled(h.slots) + 1
    ensures Handle(h, db, uid).seen == h.seen + {uid}
  {
    FilledAllIffFull(h.slots);
    var k := FirstEmpty(h.slots).value;
    FilledWrite(h.slots, k, db[uid]);
  }

  /** The step of DistinctTagsFill: the last of the tags takes one more slot. */
  lemma DistinctTagsStep(h: Hand, before: Hand, db: map<string, Card>, uids: seq<string>)
    requires 0 < |uids| && Distinct(uids) && AllRegistered(db, uids)
    requires forall i :: 0 <= i < |uids| ==> uids[i] !in h.seen
    requires |before.slots| == |h.slots| && Filled(h.slots) + |uids| <= |h.slots|
    requires Filled(before.slots) == Filled(h.slots) + |uids| - 1
    requires before.seen == h.seen + TagSet(uids[..|uids| - 1])
    ensures Filled(Handle(before, db, uids[|uids| - 1]).slots) == Filled(h.slots) + |uids|
    ensures Handle(before, db, uids[|uids| - 1]).seen == h.seen + TagSet(uids)
  {
    var n := |uids| - 1;
    var init := uids[..n];
    assert uids == init + [uids[n]];
    assert uids[n] !in before.seen;
    FreshTagTakesSlot(before, db, uids[n]);
    assert TagSet(uids) == TagSet(init) + {uids[n]};
  }

  /** Distinct fresh registered tags, no more than there are empty slots, each take one slot. */
  lemma {:induction false} DistinctTagsFill(h: Hand, db: map<string, Card>, uids: seq<string>)
    requires Distinct(uids) && AllRegistered(db, uids)
    requires forall i :: 0 <= i < |uids| ==> uids[i] !in h.seen
    requires Filled(h.slots) + |uids| <= |h.slots|
    ensures Filled(Replay(h, db, uids).slots) == Filled(h.slots) + |uids|
    ensures Replay(h, db, uids).seen == h.seen + TagSet(uids)
  {
    if |uids| > 0 {
      var n := |uids| - 1;
      var init := uids[..n];
      assert Distinct(init) && AllRegistered(db, init);
      DistinctTagsFill(h, db, init);
      DistinctTagsStep(h, Replay(h, db, init), db, uids);
      ReplayNext(h, db, uids, n);
      assert uids[..n + 1] == uids;
    } else {
      assert TagSet(uids) == {};
    }
  }

  /**
   * From a cleared table, ten distinct registered tags fill all nine slots and
   * the tenth is dropped without effect.
   */
  lemma TenthTagDropped(db: map<string, Card>, uids: seq<string>)
    requires |uids| == SlotCount + 1 && Distinct(uids) && AllRegistered(db, uids)
    ensures Full(Replay(EmptyHand(), db, uids[..SlotCount]).slots)
    ensures Replay(EmptyHand(), db, uids) == Replay(EmptyHand(), db, uids[..SlotCount])
  {
    var h0 := EmptyHand();
    var nine := uids[..SlotCount];
    FilledNone(h0.slots);
    DistinctTagsFill(h0, db, nine);
    var full := Replay(h0, db, nine);
    FilledAllIffFull(full.slots);
    assert uids[..|uids| - 1] == nine;
    FullIsNoop(full, db, uids[|uids| - 1]);
  }

  /** The registry of the worked example: seven tags, each a different card. */
  function ExampleDb(): map<string, Card>
  {
    map["A1" := "As", "B2" := "Kh", "C3" := "Qd", "D4" := "Jc", "E5" := "Ts", "F6" := "9h", "G7" := "8c"]
  }

  /** The hand after one more read of the batch `uids`. */
  lemma ReplayNext(h: Hand, db: map<string, Card>, uids: seq<string>, n: nat)
    requires n < |uids|
    ensures Replay(h, db, uids[..n + 1]) == Handle(Replay(h, db, uids[..n]), db, uids[n])
  {
    assert uids[..n + 1][..n] == uids[..n];
  }

  /** The slots holding the cards of `uids` in read order, then empty markers. */
  function InReadOrder(db: map<string, Card>, uids: seq<string>): (s: seq<Card>)
    requires AllRegistered(db, uids) && |uids| <= SlotCount
    ensures |s| == SlotCount
  {
    seq(SlotCount, k requires 0 <= k < SlotCount => if k < |uids| then db[uids[k]] else Empty)
  }

  /** One more distinct registered tag lands right after the cards read before it. */
  lemma ReadOrderStep(db: map<string, Card>, uids: seq<string>, before: Hand)
    requires Distinct(uids) && AllRegistered(db, uids) && 0 < |uids| <= SlotCount
    requires AllRegistered(db, uids[..|uids| - 1])
    requires before == Hand(InReadOrder(db, uids[..|uids| - 1]), TagSet(uids[..|uids| - 1]))
    ensures Handle(before, db, uids[|uids| - 1]) == Hand(InReadOrder(db, uids), TagSet(uids))
  {
    var n := |uids| - 1;
    var init := uids[..n];
    assert uids[n] !in before.seen;
    FillsFirstEmpty(before, db, uids[n], n);
    var want := InReadOrder(db, uids);
    assert before.slots[n := db[uids[n]]] == want by {
      forall k | 0 <= k < SlotCount
        ensures before.slots[n := db[uids[n]]][k] == want[k]
      {
        if k < n {
          assert init[k] == uids[k];
        }
      }
    }
    assert uids == init + [uids[n]];
    assert TagSet(uids) == TagSet(init) + {uids[n]};
  }

  /**
   * From a cleared table, distinct registered tags, no more than nine, occupy
   * the slots in the order they are read: the `k`-th tag's card is in slot `k`.
   */
  lemma {:induction false} ReadOrderIsFillOrder(db: map<string, Card>, uids: seq<string>)
    requires Distinct(uids) && AllRegistered(db, uids) && |uids| <= SlotCount
    ensures Replay(EmptyHand(), db, uids) == Hand(InReadOrder(db, uids), TagSet(uids))
  {
    var h0 := EmptyHand();
    if |uids| == 0 {
      assert h0.slots == InReadOrder(db, uids);
    } else {
      var n := |uids| - 1;
      var init := uids[..n];
      assert Distinct(init) && AllRegistered(db, init);
      ReadOrderIsFillOrder(db, init);
      ReplayNext(h0, db, uids, n);
      assert uids[..n + 1] == uids;
      ReadOrderStep(db, uids, Replay(h0, db, init));
    }
  }

  /** The seven tags of the worked example are distinct and registered to real cards. */
  lemma ExampleTagsRegistered(db: map<string, Card>, uids: seq<string>)
    requires db == ExampleDb()
    requires uids == ["A1", "B2", "C3", "D4", "E5", "F6", "G7"]
    ensures Distinct(uids) && AllRegistered(db, uids)
  {
  }

  /** The seven example tags' cards, in read order, padded with empty markers. */
  lemma ExampleCards(db: map<string, Card>, uids: seq<string>)
    requires db == ExampleDb()
    requires uids == ["A1", "B2", "C3", "D4", "E5", "F6", "G7"]
    ensures AllRegistered(db, uids)
    ensures InReadOrder(db, uids) == ["As", "Kh", "Qd", "Jc", "Ts", "9h", "8c", Empty, Empty]
  {
  }

  /** The worked example: eight reads, one a repeat, fill seven slots in order; the repeat is ignored. */
  lemma ExampleReplay(db: map<string, Card>, uids: seq<string>)
    requires db == ExampleDb()
    requires uids == ["A1", "B2", "A1", "C3", "D4", "E5", "F6", "G7"]
    ensures Replay(EmptyHand(), db, uids).slots == ["As", "Kh", "Qd", "Jc", "Ts", "9h", "8c", Empty, Empty]
  {
    var h0 := EmptyHand();
    var rest := ["C3", "D4", "E5", "F6", "G7"];
    RedeliveryIsNoop(h0, db, [], "A1", ["B2"]);
    assert [] + ["A1"] + ["B2"] + ["A1"] == ["A1", "B2", "A1"];
    assert [] + ["A1"] + ["B2"] == ["A1", "B2"];
    ReplayAppend(h0, db, ["A1", "B2", "A1"], rest);
    ReplayAppend(h0, db, ["A1", "B2"], rest);
    assert uids == ["A1", "B2", "A1"] + rest;
    var distinct := ["A1", "B2"] + rest;
    assert distinct == ["A1", "B2", "C3", "D4", "E5", "F6", "G7"];
    ExampleTagsRegistered(db, distinct);
    ReadOrderIsFillOrder(db, distinct);
    ExampleCards(db, distinct);
  }
}
