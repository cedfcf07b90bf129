# Show Mouse/Keyboard Actions — a verified model

The userscript `ShowMouseKeyboardActions.user.js` overlays six small cells on a
browser game, one per watched input: the left mouse button (`0`), the right
mouse button (`2`), and the movement keys `w`, `a`, `s`, `d`. Each cell has the
id `Road_SMKA_<char>`. When the script loads, it builds a lookup table from
input identifiers to cell selectors:

- each watched character;
- the four arrow keys as aliases of `w a s d`;
- the upper-cased form of every key registered so far.

Every `keydown`, `keyup`, `mousedown` and `mouseup` on the game window calls
`toggleVisual`. That function ignores a keyboard `0` or `2` and any
identifier the table does not answer. Otherwise it flips the `active` class of
each cell that the selector matches.

The model is split into modules as follows:

- `JsCoercion` (`js_coercion.dfy`): the two pieces of JavaScript behaviour the script relies on.
  - `toUpperCase` on ASCII.
  - Number-to-property-key conversion, with its inverse.
- `CellIds` (`cell_ids.dfy`): the cell ids and selectors, and the six cells of the overlay.
- `LookupTable` (`lookup_table.dfy`): the table builder, as three imperative phases (two loops and the alias assignments).
  - Each phase is proved against a predicate on the map it produces.
  - The whole builder is proved to meet `IsLookupTable`.
  - Lemmas cover uniqueness, closure under upper-casing and the values the table can hold.
- `ScriptTable` (`script_table.dfy`): the table for the script's own watch list `"02wasd"`.
  - Which keys it answers, and which cell each selects.
- `Toggler` (`toggler.dfy`): `toggleVisual` and the four event handlers, as a transition on a map from cell id to active flag.
  - Each call does not depend on the rest of the state.
  - A call flips exactly the addressed cell.
  - A call is its own inverse, and calls commute.
  - After any sequence of events, a cell's state is the parity of the number of events that reached it.
- `Overlay` (`overlay.dfy`): the running page, as a class.
  - The class holds the table, the cells in document order and their active flags.
  - Its methods update the flags in place with the `forEach` loop.
- `ScriptEvents` (`script_events.dfy`): what concrete inputs do.
  - Mouse buttons and unwatched keys.
  - A press/release session.
  - The auto-repeat case.

The code flips a cell on every event; it never sets a cell on a press or clears
it on a release. A release therefore undoes its press. A press repeated by key
auto-repeat flips the cell back, and an odd number of repeats leaves the cell
lit after the key is released (`ScriptEvents.RepeatThenReleaseStaysLit`).
The script has no colour handling beyond its static style sheet. It attaches
its listeners only to the game frame's window (lines 84 and 92), and it never
moves the input focus.

## Model

| member | source | states |
|---|---|---|
| JsCoercion.UpperChar | ShowMouseKeyboardActions.user.js:112 | `toUpperCase` on one character: a lower-case ASCII letter moves 32 code points down to upper case; any other character is unchanged |
| JsCoercion.Upper | ShowMouseKeyboardActions.user.js:112 | `key.toUpperCase()` keeps the length of the key |
| JsCoercion.UpperLetters | ShowMouseKeyboardActions.user.js:112 | each lower-case ASCII letter of the key moves 32 code points down, every other character stays, and the result has no lower-case letter |
| JsCoercion.UpperKeepsNonLetters | ShowMouseKeyboardActions.user.js:111-113 | a key with no lower-case letter, such as `"0"` or `"2"`, is its own upper-cased form |
| JsCoercion.UpperIdempotent | ShowMouseKeyboardActions.user.js:111-113 | upper-casing an already upper-cased key changes nothing, so the loop's new keys are fixed points |
| JsCoercion.DigitChar | ShowMouseKeyboardActions.user.js:123 | a digit value becomes the digit character with that value |
| JsCoercion.Digits | ShowMouseKeyboardActions.user.js:123 | the decimal digits of a natural number: non-empty, all digits, one digit exactly below ten, no leading zero |
| JsCoercion.DecimalString | ShowMouseKeyboardActions.user.js:123 | the property key a button code becomes: digits with a leading minus sign exactly for negative codes |
| JsCoercion.DigitsRoundTrip | ShowMouseKeyboardActions.user.js:123 | reading a natural number's digits back gives the number |
| JsCoercion.DecimalRoundTrip | ShowMouseKeyboardActions.user.js:123 | reading any integer's property key back gives the integer |
| JsCoercion.DecimalStringInjective | ShowMouseKeyboardActions.user.js:123 | distinct button codes index distinct keys |
| CellIds.CellId | ShowMouseKeyboardActions.user.js:35-37 | a cell id is the prefix `Road_SMKA_` (line 14) followed by exactly the one character |
| CellIds.Selector | ShowMouseKeyboardActions.user.js:104 | a stored selector is `#` followed by the cell id |
| CellIds.CellOrder | ShowMouseKeyboardActions.user.js:42-47 | the overlay lays out one cell per watched character, in the order of `"02wasd"` |
| CellIds.CellIdRoundTrip | ShowMouseKeyboardActions.user.js:35-37 | the character is recovered from its cell id |
| CellIds.CharOfCellIdSound | ShowMouseKeyboardActions.user.js:35-37 | a string reads back as character `c` if and only if it is `c`'s cell id |
| CellIds.CellIdInjective | ShowMouseKeyboardActions.user.js:35-37 | two characters share a cell id if and only if they are equal |
| CellIds.SelectorAddressesOneCell | ShowMouseKeyboardActions.user.js:127 | a selector `#<id>` matches a cell if and only if that cell has the character's id |
| CellIds.CellOrderIsAllCells | ShowMouseKeyboardActions.user.js:42-47 | the layout lists no cell twice and lists exactly the cells of the watched characters |
| CellIds.DistinctCount | ShowMouseKeyboardActions.user.js:42-47 | a list without repetitions has as many distinct elements as it is long |
| CellIds.SixCells | ShowMouseKeyboardActions.user.js:42-47 | the overlay has exactly six cells |
| LookupTable.CharEntries | ShowMouseKeyboardActions.user.js:103-105 | each watched character is registered under its one-character key, in order |
| LookupTable.Arrows | ShowMouseKeyboardActions.user.js:107-110 | the four aliases: `ArrowUp`, `ArrowLeft`, `ArrowDown`, `ArrowRight` pair with `w`, `a`, `s`, `d` |
| LookupTable.Entries | ShowMouseKeyboardActions.user.js:103-110 | the directly registered keys: one per watched character, then the four arrow aliases |
| LookupTable.EntriesLayout | ShowMouseKeyboardActions.user.js:103-110 | the entries list each watched character `c` as key `"c"` selecting `c`, in order, followed by the four arrow aliases in source order |
| LookupTable.KeysOf | ShowMouseKeyboardActions.user.js:111 | the key snapshot lists each registered key in insertion order |
| LookupTable.UpperAll | ShowMouseKeyboardActions.user.js:111-113 | the keys the second loop adds are the snapshot's keys upper-cased, position by position |
| LookupTable.IsTableOf | ShowMouseKeyboardActions.user.js:100-116 | the finished table of a list of entries: each key and its upper-cased form select the entry's cell, and there is no other key |
| LookupTable.IsLookupTable | ShowMouseKeyboardActions.user.js:100-116 | the table the script builds from a watch list is the table of its character entries followed by the arrow aliases |
| LookupTable.WatchedIsWatchList | ShowMouseKeyboardActions.user.js:18 | `"02wasd"` repeats no character, has no upper-case letter and contains `w a s d` |
| LookupTable.BuildLookup | ShowMouseKeyboardActions.user.js:100-116 | the finished table maps every registered key and its upper-cased form to its character's selector, and has no other key |
| LookupTable.AddWatchedChars | ShowMouseKeyboardActions.user.js:101-105 | after the first loop the table holds exactly one entry per watched character, mapping `c` to `#Road_SMKA_c` |
| LookupTable.AddArrowAliases | ShowMouseKeyboardActions.user.js:107-110 | after the aliases each arrow key maps to its movement key's selector, the character entries are kept, and nothing else is added |
| LookupTable.AddUpperCased | ShowMouseKeyboardActions.user.js:111-113 | over a snapshot of the keys, every existing entry is kept, each key's upper-cased form maps to that key's selector, and no other key appears |
| LookupTable.UpperInjectiveOnArrows | ShowMouseKeyboardActions.user.js:107-110 | the four arrow keys stay distinct when upper-cased |
| LookupTable.UpperArrowIsNoArrow | ShowMouseKeyboardActions.user.js:107-112 | no arrow key is another arrow key upper-cased |
| LookupTable.EntriesCaseDistinct | ShowMouseKeyboardActions.user.js:103-112 | for a watch list, no two registered keys share an upper-cased form, and no key upper-cases onto another |
| LookupTable.EntriesCaseConsistent | ShowMouseKeyboardActions.user.js:111-113 | the table before the second loop meets that loop's conditions, so no entry is overwritten with a different selector |
| LookupTable.UpperCasedIsTable | ShowMouseKeyboardActions.user.js:111-113 | adding the upper-cased forms to the base entries yields exactly the table of those entries |
| LookupTable.KeyOrigin | ShowMouseKeyboardActions.user.js:100-116 | every key in the table is a registered key or its upper-cased form, and selects that entry's cell |
| LookupTable.TableUnique | ShowMouseKeyboardActions.user.js:100-116 | the table is determined by its entries: two tables of the same entries are equal |
| LookupTable.UpperClosed | ShowMouseKeyboardActions.user.js:111-113 | the table is closed under upper-casing: any key's upper-cased form is present and selects the same cell |
| LookupTable.CellOfKey | ShowMouseKeyboardActions.user.js:100-116 | every value in the table is the selector of a watched character |
| ScriptTable.AliasGroup | ShowMouseKeyboardActions.user.js:103-113 | a movement key, its upper-cased form, its arrow alias and the alias upper-cased all select the movement key's cell |
| ScriptTable.UpKeysShareCell | ShowMouseKeyboardActions.user.js:107-113 | `w`, `W`, `ArrowUp`, `ARROWUP` are all present and all select the W cell |
| ScriptTable.LeftKeysShareCell | ShowMouseKeyboardActions.user.js:108-113 | `a`, `A`, `ArrowLeft`, `ARROWLEFT` are all present and all select the A cell |
| ScriptTable.DownKeysShareCell | ShowMouseKeyboardActions.user.js:109-113 | `s`, `S`, `ArrowDown`, `ARROWDOWN` are all present and all select the S cell |
| ScriptTable.RightKeysShareCell | ShowMouseKeyboardActions.user.js:110-113 | `d`, `D`, `ArrowRight`, `ARROWRIGHT` are all present and all select the D cell |
| ScriptTable.DigitKeys | ShowMouseKeyboardActions.user.js:103-113 | `0` and `2` select their own cells, and upper-casing leaves them unchanged |
| ScriptTable.ArrowPrefix | ShowMouseKeyboardActions.user.js:107-110 | every arrow key starts with `Arrow` |
| ScriptTable.UpperArrowPrefix | ShowMouseKeyboardActions.user.js:112 | an upper-cased arrow key starts with `ARROW` |
| ScriptTable.ArrowFormShape | ShowMouseKeyboardActions.user.js:107-113 | both forms of every arrow key start with `Arrow` or `ARROW` |
| ScriptTable.KeyShape | ShowMouseKeyboardActions.user.js:100-116 | every key in the table is one character long or starts with `Arrow` or `ARROW` |
| ScriptTable.KeyForms | ShowMouseKeyboardActions.user.js:100-116 | every key in the table is one character long or is one of the four arrow keys, as registered or upper-cased |
| ScriptTable.SingleCharKey | ShowMouseKeyboardActions.user.js:100-116 | a one-character key is in the table if and only if it is one of `02wasdWASD` |
| ScriptTable.NumberKey | ShowMouseKeyboardActions.user.js:123 | a number indexes the table if and only if it is 0 or 2 |
| Toggler.PropertyKey | ShowMouseKeyboardActions.user.js:123 | a key name indexes the table as it is; a button code indexes it by a decimal string that reads back as the code |
| Toggler.LooselyZeroOrTwo | ShowMouseKeyboardActions.user.js:120 | the guard (identifier loosely equal to 0 or to 2) holds exactly when the identifier's property key is `"0"` or `"2"` |
| Toggler.SelectorFor | ShowMouseKeyboardActions.user.js:119-125 | `toggleVisual` acts exactly when the identifier is not a keyboard `0`/`2` and is in the table, and then on the table's selector |
| Toggler.FlipMatching | ShowMouseKeyboardActions.user.js:127-129 | toggling by a selector keeps the same set of cells |
| Toggler.Matches | ShowMouseKeyboardActions.user.js:127 | a selector matches a cell exactly when it is `#` followed by the cell's id |
| Toggler.Toggle | ShowMouseKeyboardActions.user.js:118-130 | a call keeps the same set of cells |
| Toggler.IdentifierOf | ShowMouseKeyboardActions.user.js:83-96 | a keyboard event passes its `key` and a mouse event its `button`, and the identifier is a button exactly for mouse events |
| Toggler.IsMouse | ShowMouseKeyboardActions.user.js:86-94 | `isMouse` is false for keydown and keyup, and true for mousedown and mouseup |
| Toggler.Apply | ShowMouseKeyboardActions.user.js:83-96 | an event keeps the same set of cells |
| Toggler.Replay | ShowMouseKeyboardActions.user.js:83-96 | a sequence of events keeps the same set of cells |
| Toggler.KeyboardDigitIgnored | ShowMouseKeyboardActions.user.js:119-122 | a non-mouse call with `0` or `2` leaves every cell unchanged |
| Toggler.UnknownIgnored | ShowMouseKeyboardActions.user.js:123-125 | an identifier absent from the table leaves every cell unchanged |
| Toggler.SelectorIsCell | ShowMouseKeyboardActions.user.js:123-127 | whatever selector a call acts on is the selector of a watched character's cell |
| Toggler.FlipOne | ShowMouseKeyboardActions.user.js:127-129 | toggling by a cell's selector flips that cell and leaves the others unchanged |
| Toggler.FlipTwice | ShowMouseKeyboardActions.user.js:128 | toggling the same cells twice restores them |
| Toggler.ToggleFlipsAddressedCell | ShowMouseKeyboardActions.user.js:118-130 | a call that resolves to a cell flips that cell only |
| Toggler.ToggleInvolution | ShowMouseKeyboardActions.user.js:118-130 | any call made twice restores the cells |
| Toggler.ToggleCommutes | ShowMouseKeyboardActions.user.js:118-130 | the result of two calls does not depend on their order |
| Toggler.KeyPressRoundTrip | ShowMouseKeyboardActions.user.js:83-88 | a keydown followed by the keyup of the same key restores the cells |
| Toggler.ClickRoundTrip | ShowMouseKeyboardActions.user.js:91-96 | a mousedown followed by the mouseup of the same button restores the cells |
| Toggler.KeyRepeatCancels | ShowMouseKeyboardActions.user.js:83-88 | two keydowns of the same key, as auto-repeat sends, cancel out |
| Toggler.ReachesExactly | ShowMouseKeyboardActions.user.js:123-127 | an event resolving to a cell's selector reaches that cell and no other |
| Toggler.ApplyFlipsReached | ShowMouseKeyboardActions.user.js:83-129 | an event flips a cell exactly when it reaches that cell |
| Toggler.ReplayParity | ShowMouseKeyboardActions.user.js:83-130 | after any event sequence a cell differs from its start exactly when an odd number of the events reached it |
| Toggler.HeldInputsBothActive | ShowMouseKeyboardActions.user.js:83-96 | two inputs pressed on different inactive cells leave both cells active |
| Overlay.Page.constructor | ShowMouseKeyboardActions.user.js:100-116 | after loading, the table is built, the layout holds the six cells, and no cell is active |
| Overlay.Page.ToggleVisual | ShowMouseKeyboardActions.user.js:118-130 | the active flags change in place exactly as `Toggle` says, and the page stays well formed |
| Overlay.Page.HandleEvent | ShowMouseKeyboardActions.user.js:80-97 | each of the four listeners passes its event to `toggleVisual`, keys as non-mouse and buttons as mouse |
| Overlay.ToggleAll | ShowMouseKeyboardActions.user.js:127-129 | visiting the cells in document order and flipping each one that matches gives exactly `FlipMatching` |
| ScriptEvents.MouseButtons | ShowMouseKeyboardActions.user.js:91-125 | the left and right buttons select their own cells; a button selects a cell exactly when it is 0 or 2 |
| ScriptEvents.AnsweredKeys | ShowMouseKeyboardActions.user.js:123-125 | a key that `toggleVisual` acts on is one of `02wasdWASD` or one of the four arrow keys, as registered or upper-cased |
| ScriptEvents.UnwatchedCharIgnored | ShowMouseKeyboardActions.user.js:123-125 | a one-character key outside `02wasdWASD`, such as `q`, leaves every cell unchanged |
| ScriptEvents.MiddleButtonIgnored | ShowMouseKeyboardActions.user.js:123-125 | the middle button (code 1) leaves every cell unchanged |
| ScriptEvents.UpKeysFlipW | ShowMouseKeyboardActions.user.js:107-129 | `w`, `W`, `ArrowUp` and `ARROWUP` each flip the W cell and nothing else |
| ScriptEvents.SessionHits | ShowMouseKeyboardActions.user.js:83-125 | in the session (press W, press left button, type `0`, release W), W is reached twice, the left-button cell once, and no other cell |
| ScriptEvents.SessionOutcome | ShowMouseKeyboardActions.user.js:83-130 | from a blank overlay, after that session exactly the left-button cell is lit |
| ScriptEvents.RepeatThenReleaseStaysLit | ShowMouseKeyboardActions.user.js:83-129 | a keydown, one auto-repeated keydown and a keyup leave the W cell lit |

## Left out

- The readiness poll (`setInterval`/`clearInterval`, lines 20-31) is timer plumbing with no state of its own. The model starts from the point where the overlay exists.
- `buildVisual` (lines 39-78) is left out: its HTML assembly, the cell labels, `insertAdjacentHTML` and the CSS passed to `GM_addStyle`. Only its result is kept, which is the six cells with the derived ids in document order, all inactive.
- The `console.log` tracing at lines 85 and 93 is output only.
- `document.querySelectorAll` and `classList.toggle` are abstracted to a map from cell id to active flag. A selector matches a cell exactly when it is `#` followed by the cell's id.
- The active class name (line 16) is not modelled: only whether a cell carries it.
- Toggler.LooselyZeroOrTwo: models the loose `== 0 || == 2` test only for the strings `"0"` and `"2"` and the numbers 0 and 2. In JavaScript it also holds for strings such as `" "`, `"0.0"` or `"2e0"`. None of those is a table key, so the outcome is the same either way.
- JsCoercion.Upper: models `toUpperCase` on ASCII only. Every key it is applied to is ASCII.
- JsCoercion.DecimalString: covers integers only, with no exponent form for magnitudes of 10^21 and above. Button codes are small integers.
- Properties the table inherits from `Object.prototype` (such as `"toString"`) are not modelled. The model treats a key absent from the table as unanswered.
- `Object.keys` enumerates integer-like keys first. For this table that is its insertion order anyway, because `"0"` and `"2"` are inserted first. The model proves the second loop's result does not depend on the order (LookupTable.AddUpperCased).
- LookupTable.BuildLookup: its correctness is proved for any watch list meeting IsWatchList, not only `"02wasd"`. A list outside that condition is not covered: one with an upper-case letter, a repeated character or a missing movement key.
- Nothing else happens on an event: there is no colour refresh, no second listener on the top-level page and no change of focus, so there is none to model.
