/**
 * The table state of the tracker window (main.py, class Application) without
 * its widgets: the card slots, the UIDs consumed this hand, the hand counter,
 * the log file handle and the presentation mode, with the operations that the
 * serial readers and the buttons invoke.
 */
module Tracker {
  import opened Wrappers
  import opened Cards
  import opened Layout
  import opened Dispatch

  /** What one save appends to the log file: the hand number and the three regions as they were. */
  datatype Record = Record(hand: nat, p1: seq<Card>, p2: seq<Card>, board: seq<Card>)

  /** A record together with the file it was appended to. */
  datatype Entry = Entry(file: string, record: Record)

  /** The record of a layout under a given hand number. */
  function Snapshot(hand: nat, cd: map<Area, seq<Card>>): (r: Record)
    requires WellFormed(cd)
    ensures r.p1 + r.p2 + r.board == Flatten(cd) && r.hand == hand
    ensures |r.p1| == Size(P1) && |r.p2| == Size(P2) && |r.board| == Size(Board)
  {
    Record(hand, cd[P1], cd[P2], cd[Board])
  }

  /** The log file name made from the time stamp of the first save of a session. */
  function LogPath(stamp: string): (path: string)
    ensures |path| > 0
  {
    "log/log_" + stamp + ".txt"
  }

  /**
   * Writing a fresh UID's card into slot `i` of the `a`-th region, when that
   * slot is the first empty one in fill order, is the read that Handle describes.
   */
  lemma PlaceIsHandle(cd: map<Area, seq<Card>>, seen: set<string>, db: map<string, Card>, uid: string, a: nat, i: nat)
    requires WellFormed(cd) && uid !in seen && a < |Areas| && i < |cd[Areas[a]]|
    requires cd[Areas[a]][i] == Empty
    requires forall j :: 0 <= j < Offset(a) ==> Flatten(cd)[j] != Empty
    requires forall j :: 0 <= j < i ==> cd[Areas[a]][j] != Empty
    ensures WellFormed(cd[Areas[a] := cd[Areas[a]][i := Resolve(db, uid)]])
    ensures Hand(Flatten(cd[Areas[a] := cd[Areas[a]][i := Resolve(db, uid)]]), seen + {uid})
         == Handle(Hand(Flatten(cd), seen), db, uid)
  {
    var k := Offset(a) + i;
    FlattenAt(cd, a, i);
    forall j | Offset(a) <= j < k
      ensures Flatten(cd)[j] != Empty
    {
      FlattenAt(cd, a, j - Offset(a));
    }
    FillsFirstEmpty(Hand(Flatten(cd), seen), db, uid, k);
    FlattenUpdate(cd, a, i, Resolve(db, uid));
  }

  /** When every slot of the `a`-th region is occupied, so are its slots in fill order. */
  lemma RegionOccupied(cd: map<Area, seq<Card>>, a: nat)
    requires WellFormed(cd) && a < |Areas|
    requires forall j :: 0 <= j < |cd[Areas[a]]| ==> cd[Areas[a]][j] != Empty
    ensures forall j :: Offset(a) <= j < Offset(a + 1) ==> Flatten(cd)[j] != Empty
  {
  }

  class Application {
    var mode: Mode
    var handCount: nat
    var logFilename: Option<string>
    var cardData: map<Area, seq<Card>>
    var readUids: set<string>
    /** The records appended to log files so far, in order. */
    ghost var appended: seq<Entry>

    /**
     * The object invariant: the regions keep their 2/2/5 slots, the hand
     * counter is positive, the hand invariant of module Dispatch holds, and a
     * log file, once named, has a non-empty name.
     */
    ghost predicate Valid()
      reads this
    {
      WellFormed(cardData) && handCount >= 1 &&
      HandInvariant(Hand(Flatten(cardData), readUids)) &&
      (logFilename.Some? ==> logFilename.value != "")
    }

    /** The nine slots in fill order. */
    function Slots(): seq<Card>
      reads this
      requires WellFormed(cardData)
    {
      Flatten(cardData)
    }

    /** The slots together with the UIDs consumed this hand. */
    function CurrentHand(): Hand
      reads this
      requires WellFormed(cardData)
    {
      Hand(Slots(), readUids)
    }

    /** The window as it opens: manager mode, hand 1, no log file yet, an empty table. */
    constructor ()
      ensures Valid()
      ensures mode == Manager && handCount == 1 && logFilename == None
      ensures CurrentHand() == EmptyHand() && appended == []
    {
      mode := Manager;
      handCount := 1;
      logFilename := None;
      cardData := EmptyLayout();
      readUids := {};
      appended := [];
      new;
      EmptyLayoutHand();
    }

    /** The mode button: switches between manager and player mode. */
    method ToggleMode()
      requires Valid()
      modifies this
      ensures Valid()
      ensures mode == Toggled(old(mode))
      ensures cardData == old(cardData) && readUids == old(readUids)
      ensures handCount == old(handCount) && logFilename == old(logFilename) && appended == old(appended)
    {
      mode := Toggled(mode);
    }

    /**
     * One tag read from either serial reader. The scan visits the regions in
     * the order P1, P2, BOARD and each region's slots from the left, and stops
     * at the first slot holding the empty marker.
     */
    method HandleUid(db: map<string, Card>, uid: string)
      requires Valid()
      modifies this
      ensures Valid()
      ensures CurrentHand() == Handle(old(CurrentHand()), db, uid)
      ensures mode == old(mode) && handCount == old(handCount) && logFilename == old(logFilename)
      ensures appended == old(appended)
    {
      if uid in readUids {
        return;
      }
      var card: Card;
      if uid in db {
        card := db[uid];
      } else {
        card := Empty;
      }
      ghost var h0 := CurrentHand();
      var placed := false;
      var a := 0;
      while a < |Areas|
        invariant 0 <= a <= |Areas|
        invariant !placed && unchanged(this)
        invariant forall j :: 0 <= j < Offset(a) ==> h0.slots[j] != Empty
      {
        var area := Areas[a];
        var i := 0;
        while i < |cardData[area]|
          invariant 0 <= i <= |cardData[area]|
          invariant !placed && unchanged(this)
          invariant forall j :: 0 <= j < i ==> cardData[area][j] != Empty
        {
          if cardData[area][i] == Empty {
            PlaceIsHandle(cardData, readUids, db, uid, a, i);
            cardData := cardData[area := cardData[area][i := card]];
            readUids := readUids + {uid};
            placed := true;
            break;
          }
          i := i + 1;
        }
        if placed {
          break;
        }
        RegionOccupied(cardData, a);
        a := a + 1;
      }
      if !placed {
        FullIsNoop(h0, db, uid);
      }
      HandleKeepsInvariant(h0, db, uid);
    }

    /** The reset button: every slot back to the empty marker and no UID consumed; nothing else changes. */
    method ResetCards()
      requires Valid()
      modifies this
      ensures Valid()
      ensures CurrentHand() == EmptyHand()
      ensures mode == old(mode) && handCount == old(handCount) && logFilename == old(logFilename)
      ensures appended == old(appended)
    {
      cardData := EmptyLayout();
      readUids := {};
      EmptyLayoutHand();
    }

    /**
     * The game reset button, with the answer to its confirmation dialog: when
     * confirmed, hand 1, no log file and an empty table; otherwise nothing.
     */
    method GameReset(confirm: bool)
      requires Valid()
      modifies this
      ensures Valid()
      ensures !confirm ==> unchanged(this)
      ensures confirm ==> handCount == 1 && logFilename == None && CurrentHand() == EmptyHand()
      ensures mode == old(mode) && appended == old(appended)
    {
      if !confirm {
        return;
      }
      handCount := 1;
      logFilename := None;
      ResetCards();
    }

    /**
     * The save button. Names the log file from `stamp` (the current time) when
     * the session has none yet, appends the current hand number and layout to
     * it, then moves to the next hand with an empty table.
     */
    method SaveLog(stamp: string)
      requires Valid()
      modifies this
      ensures Valid()
      ensures logFilename == if old(logFilename).None? then Some(LogPath(stamp)) else old(logFilename)
      ensures appended == old(appended) + [Entry(logFilename.value, Snapshot(old(handCount), old(cardData)))]
      ensures handCount == old(handCount) + 1
      ensures CurrentHand() == EmptyHand() && mode == old(mode)
    {
      if logFilename.None? {
        logFilename := Some(LogPath(stamp));
      }
      appended := appended + [Entry(logFilename.value, Snapshot(handCount, cardData))];
      handCount := handCount + 1;
      ResetCards();
    }
  }
}
