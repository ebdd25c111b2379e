# Flip-clock digit display (date-a-live-bjtime) in Dafny

The page shows the local date and time of the host and a countdown to New Year.
Every digit, and the 十 and 万 glyphs, is drawn as an image; the labels
(年, 月, 日, 距离明年还剩, 天) and the ':' separators are plain text.
`script.js` turns each clock field into its decimal text. It then resolves every character of that text to an
image path for one display *slot*, keyed `"<type>_<index>"` (`year_0`,
`minute_1`, `wan_0`, ...). The resolved path is remembered per slot in
`digitCache`, and the per-character file list is memoised in `imageFiles`.
A fingerprint of the fields, `currentFullTime`, skips rebuilding the date,
time and countdown blocks when nothing has changed. The three fixed glyph
slots (十 at `ten1_0` and `ten2_0`, 万 at `wan_0`) are resolved on every
tick.

The project has three modules:

- `Decimal` (Decimal.dfy) covers the number formatting the code relies on:
  - `String(n)` is `NatToString`/`IntToString`, with parsers for the round trip.
  - `padStart` is `PadStart`.
  - `String(v).padStart(2, '0')` is `Pad2`.
- `Clock` (Clock.dfy) covers two things:
  - the fingerprint `FullTime` and its injectivity, which justifies the dirty check;
  - the countdown `Math.ceil(diffMs / 86400000)` as integer ceiling division.
- `DigitDisplay` (DigitDisplay.dfy) holds the stateful engine, the class `Engine`:
  - Its fields are the two dictionaries and the fingerprint, updated in place by its methods.
  - `getImageFiles`, `getImagePath`, `numberToImageHtml`, `ensureSpecialImagesLoaded` and `updateDateTime` are methods of `Engine`.
  - `GetImagePath` states its new cache as a single map update. Each method from `NumberToImages` up states it as `Apply(old cache, resolutions)`, a pure fold over the slots it resolved, in order.
  - The lemmas about `Apply` give what a slot holds afterwards, and that every other slot is unchanged.
  - Markup is modelled as a sequence of `Piece`s: an image with its path and alt character, or literal text such as 年 or `:`.
  - The helper functions (`SlotKey`, `FileName`, `ImagePath`, `DaysLeft`, `Apply`, `DateBlock`, `TimeBlock`, `CountdownBlock`) keep their definitions free of contracts. What each means is stated by a lemma beside it, listed in the table below.
- `Engine.log` is a ghost record of the resolutions performed, kept only for specification. The program itself has no such list.

Month and day are padded to two digits, as script.js:96-97 does. The year
stays unpadded (script.js:95).

## Model

| member | source | states |
|---|---|---|
| Decimal.NatToString | script.js:96-100 | `String(n)` of a natural is a non-empty run of decimal digits, one character exactly when n < 10, with no leading zero unless n is 0 |
| Decimal.ParseNatToString | script.js:96-100 | reading the digits of `String(n)` back gives n (round trip) |
| Decimal.NatToStringInjective | script.js:96-100 | distinct naturals have distinct decimal strings |
| Decimal.IntToString | script.js:95-103 | `String(i)` of an integer starts with '-' exactly when i is negative, and agrees with the natural numeral otherwise |
| Decimal.ParseIntToString | script.js:95-103 | `String(i)` is a well-formed numeral that parses back to i, the sign included |
| Decimal.IntToStringInjective | script.js:95-103 | distinct integers have distinct numerals, so the unpadded year is recoverable |
| Decimal.PadStart | script.js:96-100 | `padStart(width, fill)` has length max(len, width), ends with the original text and has only fill characters before it |
| Decimal.Pad2Width | script.js:96-100 | for 0 ≤ v ≤ 99 the padded field is exactly two digits that denote v |
| Decimal.Pad2Unchanged | script.js:96-100 | padding leaves the numeral of v ≥ 10 unchanged |
| Decimal.Pad2Injective | script.js:96-100 | two fields in 0..99 with equal padded text are equal |
| Decimal.Pad2Numeral | script.js:96-100 | `Pad2(v)`, which is `String(v).padStart(2, '0')`: a one-character numeral gets a '0' in front, and a longer one is kept unchanged, sign included |
| Decimal.PaddingExamples | script.js:95-97 | 3 is shown as "03", 34 as "34", and the year 2024 unpadded as "2024" |
| Clock.FullTime | script.js:103 | the fingerprint has at least the year's character plus five two-character fields |
| Clock.FullTimeInjective | script.js:95-103 | when the five trailing fields lie in 0..99, equal fingerprints mean equal (year, month, day, hour, minute, second) |
| Clock.FingerprintChangesIffFieldsChange | script.js:103-107 | the fingerprint differs from the one shown exactly when some field differs |
| Clock.CeilDiv | script.js:120 | `Math.ceil(d / m)` for m > 0 is the r with (r-1)·m < d ≤ r·m |
| Clock.CeilDivUnique | script.js:120 | that bracket has exactly one solution, so it characterises the ceiling |
| Clock.DaysLeftLastDay | script.js:118-120 | with at most one day (and more than 0 ms) left, the countdown shows 1 |
| Clock.DaysLeftBracket | script.js:118-120 | `DaysLeft`, the countdown value: the days shown are never fewer than the time left and never a whole day more; positive time left shows at least 1 |
| DigitDisplay.TypeName | script.js:30-31 | every slot type name is non-empty and free of the key separator '_' |
| DigitDisplay.SlotKeyInjective | script.js:30-36 | two slots with the same cache key have the same type and index |
| DigitDisplay.SlotKeyParts | script.js:31 | `SlotKey(t, i)`, the key `${type}_${index}`: the type name, then '_', then the numeral of the index, and nothing else |
| DigitDisplay.SlotKeysDistinct | script.js:31 | distinct (type, index) pairs get distinct keys |
| DigitDisplay.SlotTypesDisjoint | script.js:75-85 | the keys of slots of two different types never overlap, whatever the lengths |
| DigitDisplay.ImagePathNamesCharacter | script.js:51 | `ImagePath(c)` is `resources/`, then c, then '/', then the file name `FileName(c)`, which is c followed by `-1.png`; distinct characters never share a path |
| DigitDisplay.ApplyAppend | script.js:79-85 | applying two runs of resolutions one after the other is applying their concatenation |
| DigitDisplay.ApplyLastWins | script.js:53-57 | `Apply`, the cache after a run of resolutions: keys are only ever added, and the last resolution of the run leaves its slot holding that character and its path |
| DigitDisplay.SlotLogAt | script.js:76-80 | decomposing a text resolves character i at slot (type, i), one resolution per character, left to right |
| DigitDisplay.ApplySlotLogAt | script.js:76-80 | after a text is resolved, slot (type, i) holds character i with its path |
| DigitDisplay.ApplySlotLogElsewhere | script.js:53-57 | resolving a text leaves every key outside its own slots exactly as it was |
| DigitDisplay.ResolveAgainAfterChange | script.js:33-59 | at one slot, A then B is a miss for B, A is no longer a hit, and resolving A again stores A's path |
| DigitDisplay.ImgsAt | script.js:63-85 | image i of a decomposed text shows character i's path with that character as its alt text |
| DigitDisplay.DateBlockLayout | script.js:111 | `DateBlock(f)`: the images of the unpadded year, 年, the images of the padded month, 月, the images of the padded day, 日, each part at its computed position |
| DigitDisplay.TimeBlockLayout | script.js:115 | `TimeBlock(f)`: the images of the padded hour, ':', the images of the padded minute, ':', the images of the padded second, each part at its computed position |
| DigitDisplay.CountdownBlockLayout | script.js:123 | `CountdownBlock`: the label 距离明年还剩, then the images of the rounded-up day count, then 天 |
| DigitDisplay.FixedSlotsAfterTick | script.js:126-147 | whatever a tick resolved before, afterwards `ten1_0` and `ten2_0` hold 十 and `wan_0` holds 万 |
| DigitDisplay.CharsAppend | script.js:14-27 | the characters touched by two runs of resolutions are those touched by each |
| DigitDisplay.Engine.constructor | script.js:5-11 | the engine starts with empty dictionaries and an empty fingerprint |
| DigitDisplay.Engine.GetImageFiles | script.js:14-27 | returns the one-element list [c + "-1.png"] and memoises it; a second call changes nothing |
| DigitDisplay.Engine.GetImagePath | script.js:30-60 | returns "resources/c/c-1.png"; a hit changes neither dictionary; a miss writes exactly that slot's entry {c, path} and memoises c's file list |
| DigitDisplay.Engine.NumberToImages | script.js:75-88 | one image per character, in order; the cache is the old one with slot (type, i) resolved to character i, for each i in turn |
| DigitDisplay.Engine.EnsureSpecialImagesLoaded | script.js:131-147 | produces images for 十, 十 and 万, resolving `ten1_0`, `ten2_0` and `wan_0` in that order |
| DigitDisplay.Engine.RenderDate | script.js:95-111 | the date block is year 年 month 月 day 日, with month and day padded, resolving the year, month and day slots |
| DigitDisplay.Engine.RenderTime | script.js:98-115 | the time block is hour:minute:second, all padded, resolving the hour, minute and second slots |
| DigitDisplay.Engine.RenderCountdown | script.js:118-123 | the countdown block is 距离明年还剩, the rounded-up day count, then 天, resolving the countdown slots |
| DigitDisplay.Engine.RebuildBlocks | script.js:110-123 | the three blocks are rebuilt in order date, time, countdown; the cache is the old one with all their slots resolved |
| DigitDisplay.Engine.RefreshBlocks | script.js:103-124 | stores the new fingerprint; rebuilds the blocks exactly when it differs from the stored one, and otherwise leaves both dictionaries unchanged |
| DigitDisplay.Engine.UpdateDateTime | script.js:91-128 | the dirty-checked rebuild followed, on both branches, by the three fixed glyph resolutions |
| DigitDisplay.LoadAndTickTwice | script.js:91-153 | on a fresh page the first tick renders all three blocks; a second tick with the same fields renders none; both ticks draw 十, 十 and 万, each with its path |

## Left out

- DOM work is not modelled: `document.createElement`, `innerHTML`, `outerHTML`, `appendChild` and `getElementById` (script.js:66-71, 81-84, 110-123, 133-146). Markup is a `Piece` sequence instead of DOM nodes, and the `digit-img`/`digit` class names are not kept.
- Scheduling is not modelled: `setInterval` and the `load` listener (script.js:150-157). A tick is one call of `UpdateDateTime`.
- The host clock and calendar are not modelled (script.js:92-100, 118-119). The clock fields and the milliseconds to next New Year are inputs.
- Time zones are not modelled. The local getters of `Date` give the host's local time, whatever its zone; the fields are taken as given.
- `Math.random` is not modelled (script.js:50). The file list always has exactly one element, so the chosen index is always 0, and the model uses 0.
- DigitDisplay.Engine.GetImagePath: the empty-list branch (script.js:40-47) can never be taken, since every file list has one element. The model proves that and keeps no code for it.
- Clock.CeilDiv: division is exact integer arithmetic. JavaScript divides in floating point; for millisecond counts below 2^53 the ceiling is the same.
- Decimal.IntToString: only the plain decimal form is modelled. JavaScript switches to exponent notation for magnitudes of 10^21 and above, which no clock field reaches.
- Characters are Dafny `char`s. `split('')` yields UTF-16 code units; every character the page uses (digits, 十, 万) is one unit.
- A fallback for images that fail to load, and a weekday, are not modelled; script.js contains neither.
