/**
 * The table's slot layout (main.py, the `card_data` dictionary): one list of
 * cards per region, and the nine slots read in fill order P1[0], P1[1],
 * P2[0], P2[1], BOARD[0..4].
 */
module Layout {
  import opened Cards

  /** The number of slots on the table. */
  const SlotCount: nat := 9

  /** A layout has exactly the three regions, with 2, 2 and 5 slots. */
  predicate WellFormed(cd: map<Area, seq<Card>>)
  {
    P1 in cd && P2 in cd && Board in cd &&
    |cd[P1]| == Size(P1) && |cd[P2]| == Size(P2) && |cd[Board]| == Size(Board)
  }

  /** The nine slots in fill order. */
  function Flatten(cd: map<Area, seq<Card>>): (s: seq<Card>)
    requires WellFormed(cd)
    ensures |s| == SlotCount
  {
    cd[P1] + cd[P2] + cd[Board]
  }

  /** The layout the table starts each hand with: every slot holds the empty marker. */
  function EmptyLayout(): (cd: map<Area, seq<Card>>)
    ensures WellFormed(cd)
    ensures forall k :: 0 <= k < |Flatten(cd)| ==> Flatten(cd)[k] == Empty
  {
    var e2 := seq(2, _ => Empty);
    map[P1 := e2, P2 := e2, Board := seq(5, _ => Empty)]
  }

  /** The number of slots in the regions before the `a`-th one of `Areas`. */
  function Offset(a: nat): (n: nat)
    requires a <= |Areas|
    ensures n == [0, 2, 4, SlotCount][a]
  {
    if a == 0 then 0 else Offset(a - 1) + Size(Areas[a - 1])
  }

  /** The fill order spelled out slot by slot. */
  lemma FillOrder(cd: map<Area, seq<Card>>)
    requires WellFormed(cd)
    ensures Flatten(cd) == [cd[P1][0], cd[P1][1], cd[P2][0], cd[P2][1],
                            cd[Board][0], cd[Board][1], cd[Board][2], cd[Board][3], cd[Board][4]]
  {
  }

  /** Slot `j` of the `a`-th region is slot `Offset(a) + j` in fill order. */
  lemma FlattenAt(cd: map<Area, seq<Card>>, a: nat, j: nat)
    requires WellFormed(cd) && a < |Areas| && j < |cd[Areas[a]]|
    ensures Offset(a) + j < SlotCount && Flatten(cd)[Offset(a) + j] == cd[Areas[a]][j]
  {
  }

  /** Writing slot `j` of the `a`-th region writes slot `Offset(a) + j` in fill order and nothing else. */
  lemma FlattenUpdate(cd: map<Area, seq<Card>>, a: nat, j: nat, c: Card)
    requires WellFormed(cd) && a < |Areas| && j < |cd[Areas[a]]|
    ensures WellFormed(cd[Areas[a] := cd[Areas[a]][j := c]])
    ensures Offset(a) + j < SlotCount
    ensures Flatten(cd[Areas[a] := cd[Areas[a]][j := c]]) == Flatten(cd)[Offset(a) + j := c]
  {
  }
}
