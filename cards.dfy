/**
 * Card identities, table regions, the presentation mode and what a single
 * card slot shows on screen (main.py, Application.get_color_from_card and
 * the per-slot choice in Application.update_display_for_mode).
 */
module Cards {

  /** A card identity as the tag registry spells it: rank then suit, e.g. "As" or "Td". */
  type Card = string

  /** The marker of an empty slot; an unregistered tag also resolves to it. */
  const Empty: Card := "?"

  /** The three named regions of the table. */
  datatype Area = P1 | P2 | Board

  /** The regions in the order in which slots are filled. */
  const Areas: seq<Area> := [P1, P2, Board]

  /** The number of slots of each region, fixed when the table is created. */
  function Size(area: Area): nat
  {
    match area
    case P1 => 2
    case P2 => 2
    case Board => 5
  }

  /** The presentation mode: the manager sees every card, players see the board only. */
  datatype Mode = Manager | Player

  /** The mode after the toggle button: "player" if it was "manager", "manager" otherwise. */
  function Toggled(m: Mode): (r: Mode)
    ensures r != m
  {
    if m == Manager then Player else Manager
  }

  lemma ToggledTwice(m: Mode)
    ensures Toggled(Toggled(m)) == m
  {
  }

  datatype Color = Black | Red | Green | Blue

  /** The suit table: spades black, hearts red, clubs green, diamonds blue, anything else black. */
  function SuitColor(suit: char): (r: Color)
    ensures r == Red <==> suit == 'h'
    ensures r == Green <==> suit == 'c'
    ensures r == Blue <==> suit == 'd'
  {
    match suit
    case 's' => Black
    case 'h' => Red
    case 'c' => Green
    case 'd' => Blue
    case _ => Black
  }

  /** The text colour of a card: decided by its second character, black when it has fewer than two. */
  function ColorOf(card: Card): (r: Color)
    ensures r == Red <==> |card| >= 2 && card[1] == 'h'
    ensures r == Green <==> |card| >= 2 && card[1] == 'c'
    ensures r == Blue <==> |card| >= 2 && card[1] == 'd'
    ensures |card| < 2 ==> r == Black
  {
    if |card| >= 2 then SuitColor(card[1]) else Black
  }

  /** Cards that share a suit character are drawn in the same colour, whatever their rank. */
  lemma ColorOnlyBySuit(c1: Card, c2: Card)
    requires |c1| >= 2 && |c2| >= 2 && c1[1] == c2[1]
    ensures ColorOf(c1) == ColorOf(c2)
  {
  }

  /** What one slot shows: its text and its text colour. */
  datatype Cell = Cell(text: string, color: Color)

  /** The circle shown in player mode in place of a private card. */
  const Concealed: string := "\U{3007}"

  /**
   * What the slot of `area` holding `card` shows in `mode`. In player mode the
   * two private hands show only whether a card is there; the board, and every
   * region in manager mode, shows the card itself in its suit colour.
   */
  function Shown(mode: Mode, area: Area, card: Card): (r: Cell)
    ensures mode == Manager || area == Board ==> r.text == card && r.color == ColorOf(card)
    ensures mode == Player && area != Board ==>
              r.color == Black && (r.text == Empty <==> card == Empty) && (card != Empty ==> r.text == Concealed)
  {
    if mode == Player && area != Board then
      Cell(if card != Empty then Concealed else Empty, Black)
    else
      Cell(card, ColorOf(card))
  }

  /** In player mode two occupied private slots look alike, so a private card is never revealed. */
  lemma PrivateCardsConcealed(area: Area, c1: Card, c2: Card)
    requires area != Board && c1 != Empty && c2 != Empty
    ensures Shown(Player, area, c1) == Shown(Player, area, c2)
  {
  }

  /** The board shows the same thing in both modes. */
  lemma BoardShownInBothModes(card: Card)
    ensures Shown(Player, Board, card) == Shown(Manager, Board, card)
  {
  }
}
