# RFID poker tracker: table-state core

This project models the table state of the RFID poker tracker window
(`main.py`, class `Application`). Two serial readers deliver tag UIDs. Each
UID is looked up in the tag registry (`tag_database`) and the resulting card
goes into the first empty slot of the table. The table has three regions:
`P1` with 2 slots, `P2` with 2 slots and `BOARD` with 5 slots. The string
`"?"` marks an empty slot. A UID read once in a hand is ignored until the
hand is cleared. Four buttons drive the session:

- reset clears the hand;
- save appends the hand to a log file and advances the hand counter;
- the mode toggle switches between manager and player display;
- game reset, after a confirmation, returns to hand 1 with no log file.

The modules follow the parts of `main.py`:

- `Cards` (cards.dfy): card identities, the empty marker, the regions, the
  presentation mode, the suit colour rule of `get_color_from_card`, and what
  one slot shows in each mode (the value and colour chosen in
  `update_display_for_mode`).
- `Layout` (layout.dfy): the `card_data` dictionary as a map from region to
  its list of cards, with its nine slots read in fill order
  `P1[0], P1[1], P2[0], P2[1], BOARD[0..4]`.
- `Dispatch` (dispatch.dfy): what `handle_uid` does, stated on values. A
  `Hand` holds the nine slots in fill order and the set of consumed UIDs.
  `Handle` is one read and `Replay` is a sequence of reads. The lemmas state
  the promised properties: write-once slots, fixed fill order, at most one
  slot changed per read, idempotent re-reads and a silent drop on a full
  table.
- `Tracker` (tracker.dfy): class `Application` with the fields `mode`,
  `handCount`, `logFilename`, `cardData` and `readUids`, and the methods
  `HandleUid`, `ResetCards`, `SaveLog`, `GameReset` and `ToggleMode`.
  `HandleUid` scans the regions with nested loops and a `placed` flag, as the
  source does, and is proved to compute `Dispatch.Handle`. The object
  invariant `Valid` keeps the regions at 2/2/5 slots and the hand counter
  positive. It also keeps the occupied slots a prefix of the fill order and
  their number at most the number of consumed UIDs.
- `Wrappers` (wrappers.dfy): `Option`, for the log file handle.

The registry is a parameter `db: map<string, string>` of `HandleUid`. The
time stamp that names the log file is a parameter `stamp` of `SaveLog`. The
answer to the confirmation dialog is a parameter `confirm` of `GameReset`.
The records appended to the log file are kept in the ghost field `appended`.

Two behaviours of the code are worth knowing:

- An unregistered UID resolves to `"?"`, which is the empty marker itself
  (`main.py:174-177`). The slot it is written to still looks empty, so the
  next tag fills that same slot. The UID is still added to `read_uids`
  (`main.py:184`). See `Dispatch.UnregisteredLeavesSlotOpen`.
- The log file is named from the time of the first save after start or after
  a game reset (`main.py:141-143`).

## Model

| member | source | states |
|---|---|---|
| Cards.Toggled | main.py:79-80 | the toggled mode always differs from the old one |
| Cards.ToggledTwice | main.py:79-80 | toggling twice gives back the original mode |
| Cards.SuitColor | main.py:95-100 | the suit table: red exactly for `h`, green exactly for `c`, blue exactly for `d`, black for every other character |
| Cards.ColorOf | main.py:92-101 | a card is red, green or blue exactly when it has at least two characters and its second one is `h`, `c` or `d`; it is black otherwise, in particular when shorter than two |
| Cards.ColorOnlyBySuit | main.py:92-101 | two cards with the same second character get the same colour, whatever their rank |
| Cards.Shown | main.py:103-117 | in manager mode, and on the board in both modes, a slot shows its card in its suit colour; a private slot in player mode is black and shows `"?"` exactly when empty, and the circle otherwise |
| Cards.PrivateCardsConcealed | main.py:104-108 | in player mode any two occupied private slots look the same, so a private card is never revealed |
| Cards.BoardShownInBothModes | main.py:114-117 | the board looks the same in both modes |
| Layout.Flatten | main.py:21-25 | a well-formed layout has exactly nine slots |
| Layout.EmptyLayout | main.py:120-124 | the cleared layout is well formed (2/2/5) and every slot holds the empty marker |
| Layout.FillOrder | main.py:180-181 | the fill order is P1[0], P1[1], P2[0], P2[1], BOARD[0] to BOARD[4] |
| Dispatch.EmptyHand | main.py:21-26 | the starting hand has nine empty slots and no consumed UID |
| Dispatch.Resolve | main.py:174-177 | a registered UID resolves to its registry card; a result other than `"?"` comes only from a registered UID |
| Dispatch.FirstEmpty | main.py:179-188 | the slot found is empty and every earlier one is occupied; no slot is found exactly when the table is full |
| Dispatch.Filled | main.py:21-25 | helper measure for the hand invariant, not a computation of the source: the number of occupied slots among the nine, at most the number of slots |
| Dispatch.Handle | main.py:170-189 | one read keeps the number of slots; what it does is stated by the lemmas below |
| Dispatch.Replay | main.py:165-166 | a sequence of reads keeps the number of slots |
| Dispatch.SeenIsNoop | main.py:171-172 | a UID already consumed this hand changes nothing at all |
| Dispatch.FullIsNoop | main.py:179-188 | a read while every slot is occupied changes nothing and raises nothing |
| Dispatch.FillsFirstEmpty | main.py:174-185 | a fresh UID writes its registry card, or `"?"` if unregistered, into the first empty slot in fill order, leaves every other slot unchanged, and is consumed |
| Dispatch.WriteOnce | main.py:182-183 | an occupied slot is never overwritten by a read |
| Dispatch.AtMostOneSlot | main.py:183-188 | a read changes at most one slot |
| Dispatch.ConsumedIffPlaced | main.py:179-188 | the UID is consumed exactly when it is fresh and some slot is empty, which is when a slot is written |
| Dispatch.UnregisteredLeavesSlotOpen | main.py:174-184 | an unregistered fresh UID leaves the slots as they were but is consumed, and the next tag lands in the same slot |
| Dispatch.HandleIdempotent | main.py:170-189 | reading the same tag twice in a row equals reading it once |
| Dispatch.FilledWrite | main.py:182-183 | writing a real card into an empty slot adds one occupied slot; writing `"?"` adds none |
| Dispatch.HandleKeepsInvariant | main.py:170-189 | every read keeps nine slots, the occupied slots a prefix of the fill order, and their number at most the number of consumed UIDs |
| Dispatch.EmptyHandInvariant | main.py:21-26 | the starting hand satisfies that invariant |
| Dispatch.EmptyLayoutHand | main.py:119-125 | the cleared layout read in fill order is the starting hand |
| Dispatch.ReplayWriteOnce | main.py:182-183 | once a slot is occupied, no later read of the hand changes it |
| Dispatch.ConsumedOrFullPersists | main.py:171-188 | once a UID is consumed or the table is full, it stays so for every later read of the hand |
| Dispatch.ReplayAppend | main.py:165-166 | reading two batches one after the other is reading their concatenation |
| Dispatch.RedeliveryIsNoop | main.py:171-172 | a tag delivered again later in the hand, after any other reads, has no effect the second time |
| Dispatch.FreshTagTakesSlot | main.py:179-185 | a fresh tag registered to a real card, read while a slot is free, adds exactly one occupied slot and is consumed |
| Dispatch.DistinctTagsFill | main.py:179-188 | distinct fresh registered tags, no more than the free slots, add one occupied slot each and are all consumed |
| Dispatch.TenthTagDropped | main.py:179-188 | from a cleared table nine distinct registered tags fill the table, and a tenth is dropped with no effect |
| Dispatch.ReadOrderIsFillOrder | main.py:179-188 | from a cleared table, the k-th of up to nine distinct registered tags ends up in slot k, the rest stay empty, and exactly those tags are consumed |
| Dispatch.ExampleReplay | main.py:170-189 | reads A1, B2, A1, C3, D4, E5, F6, G7 with registry A1 As, B2 Kh, C3 Qd, D4 Jc, E5 Ts, F6 9h, G7 8c give P1 = As Kh, P2 = Qd Jc, BOARD = Ts 9h 8c ? ? |
| Tracker.Snapshot | main.py:146-149 | the record carries the given hand number and the three regions, of 2, 2 and 5 cards, which concatenated are the nine slots in fill order |
| Tracker.LogPath | main.py:141-143 | a log file name is never empty, so the falsy test on it means "no file yet" |
| Tracker.PlaceIsHandle | main.py:180-186 | writing a fresh UID's card into the first empty slot of the scan is exactly the read `Handle` describes |
| Tracker.Application.constructor | main.py:17-26 | the window starts in manager mode at hand 1 with no log file and an empty hand |
| Tracker.Application.ToggleMode | main.py:79-82 | the mode is toggled and nothing else changes |
| Tracker.Application.HandleUid | main.py:170-189 | the new slots and consumed UIDs are `Handle` of the old ones; mode, hand counter and log file are unchanged; the object invariant is kept |
| Tracker.Application.ResetCards | main.py:119-126 | every slot is empty, no UID is consumed, the regions keep 2/2/5 slots, and mode, hand counter and log file are unchanged |
| Tracker.Application.GameReset | main.py:128-136 | unconfirmed, nothing changes; confirmed, hand 1, no log file, and an empty hand; the mode is kept |
| Tracker.Application.SaveLog | main.py:138-153 | the log file is named only when there is none and kept otherwise; one record with the pre-increment hand number and the pre-clear regions is appended to it; the hand counter rises by exactly 1; the hand is cleared |

## Left out

- Widget construction and configuration (`create_ui`, `update_mode_appearance`, every `.config` call, the "HAND n" label) is user interface. The redraw that `update_display_for_mode` performs after each operation is left out too. Only the text and colour it chooses for one slot are modelled, in `Cards.Shown`.
- `read_serial` and the two daemon threads that call `handle_uid` are serial I/O and concurrency. The source takes no lock, so two readers racing for the same empty slot are not modelled. Every read is a sequential call. The line decoding and trimming, and the skipping of empty lines, are left out with them.
- The file system side of `save_log` is I/O: `os.makedirs`, opening the file for appending, and the text of the four lines written. The record's values are kept in the ghost field `appended` instead.
- SaveLog: assumes that creating the `log` directory and appending to the file succeed. In the source, if `os.makedirs` (main.py:140) or `open`/`write` (main.py:145-149) raises, `save_log` stops there: `log_filename` may already have been set (main.py:141-143), but `hand_count` is not incremented and `card_data` and `read_uids` are not cleared (main.py:151-153). That failure path is not modelled.
- `datetime.now()` is nondeterministic; its formatted value is the parameter `stamp` of `SaveLog`. `os.path.join` uses the platform's separator, while `Tracker.LogPath` uses `/`.
- `messagebox.askyesno` is a dialog; its answer is the parameter `confirm` of `GameReset`.
- The contents of the `tag_info` module are not part of this model; the registry is the parameter `db`.
- rfid_reader.py is not part of this model: it opens a serial port at import and shows a log window, and its only logic is one dictionary lookup with a default.
- The mode is a two-valued datatype. The source stores the strings "manager" and "player", and its toggle turns any value other than "manager" into "manager". Only those two strings are ever assigned.
- `save_log` tests `not self.log_filename`, which Python also treats as true for an empty name. The model tests for `None`, and `Valid` keeps a set name non-empty, so the two tests agree.
