# Status-bar settings: the network-traffic word and the screen's decisions

This project models the core of the status-bar settings screen of the
VentureROM Settings application (`StatusBarSettings`).

The screen keeps the network-traffic display's configuration in one Java `int`, stored under the
system setting `NETWORK_TRAFFIC_STATE`. Four masks, read from resources, select its fields:
- an upload flag;
- a download flag;
- a unit flag;
- a refresh period stored from bit 16 up.

Three list pickers (up/down, unit, period) each rewrite their own part of the word with `setBit`,
`getBit`, Java's wrapping `+` and `<<`. When the screen opens it decodes the word back into picker
positions, with `&`, `>>>` and `findIndexOfValue`, and it enables or disables the dependent controls.
It also shows summaries for the quick-pulldown and smart-pulldown pickers.

The modules follow that structure:

- `Bits` — a Java `int` as a 32-bit two's-complement `Word`, least significant bit first, with
  `|`, `&`, `~`, `<<`, `>>>` and wrapping `+`. The conversions to and from `int` are proved to be
  inverses. `+` is proved to be addition modulo 2^32, `<<` multiplication by a power of two modulo
  2^32, and `>>>` division by a power of two. A `Word` is a sequence of 32 booleans rather than a
  `bv32`: with this solver configuration the verifier could not prove the `bv32` facts reliably,
  while the bitwise facts about sequences go through by plain case analysis.
- `BitField` — `setBit` and `getBit`.
- `Options` — `findIndexOfValue` as a search that returns -1 when the value is absent.
- `TrafficCodec` — the three picker updates of the packed word and the decode on open, with their
  round trips and frame properties.
- `Summaries` — the quick-pulldown and smart-pulldown summaries, as a choice of string rather than the text.
- `StatusBarScreen` — the settings store, `onCreate`'s reads and fallbacks, the enable gate, and
  `onPreferenceChange` with its three outcomes. It also proves that reopening the screen after a
  change shows what the change wrote.

## Model

| member | source | states |
|---|---|---|
| Bits.ToInt | src/com/android/settings/venture/StatusBarSettings.java:151-152 | the `int` read from a word is negative exactly when its sign bit is set |
| Bits.ToIntFromInt | src/com/android/settings/venture/StatusBarSettings.java:179-180 | every `int` turned into a word and back is itself |
| Bits.FromIntToInt | src/com/android/settings/venture/StatusBarSettings.java:151-152 | every word stored as an `int` and loaded again is the same word |
| Bits.ToNatFromNat | src/com/android/settings/venture/StatusBarSettings.java:151-152 | a natural number below 2^len written in `len` bits reads back as itself |
| Bits.FromNatToNat | src/com/android/settings/venture/StatusBarSettings.java:151-152 | a bit sequence read as a number and written back is itself |
| Bits.AddCarryValue | src/com/android/settings/venture/StatusBarSettings.java:194 | the ripple-carry sum plus its carry out weighs exactly the sum of the operands |
| Bits.AddIsModular | src/com/android/settings/venture/StatusBarSettings.java:194 | Java's `int` `+` is addition modulo 2^32 |
| Bits.DisjointAddCarry | src/com/android/settings/venture/StatusBarSettings.java:194 | adding words with no common bit produces no carry: each bit is the union of the two |
| Bits.DisjointAddIsOr | src/com/android/settings/venture/StatusBarSettings.java:153 | `+` of words with no common bit is their bitwise or |
| Bits.OverlapAddCarry | src/com/android/settings/venture/StatusBarSettings.java:194 | a bit both operands hold makes the sum differ from the union at or below that bit |
| Bits.AddIsOrIffDisjoint | src/com/android/settings/venture/StatusBarSettings.java:153-194 | `+` of two words equals their bitwise or exactly when they share no bit: the mask sum `MASK_UP + MASK_DOWN` at line 153 is their union because the masks are disjoint, and the period write at line 194 relies on the period bits being cleared first |
| Bits.ToNatSplit | src/com/android/settings/venture/StatusBarSettings.java:165 | a bit string's value is that of its low `k` bits plus 2^k times that of the rest |
| Bits.ShiftRightIsDivision | src/com/android/settings/venture/StatusBarSettings.java:165 | `>>> n` divides the unsigned value by 2^n |
| Bits.ShiftLeftIsMultiplication | src/com/android/settings/venture/StatusBarSettings.java:194 | `<< n` multiplies the unsigned value by 2^n modulo 2^32 |
| Bits.ShiftOutSmall | src/com/android/settings/venture/StatusBarSettings.java:165 | `>>> 16` gives a value in [0, 65536) whatever the sign bit |
| Bits.ShiftOutIn | src/com/android/settings/venture/StatusBarSettings.java:165 | a value in [0, 65536) shifted left by 16 and back with `>>>` is itself |
| BitField.SetBit | src/com/android/settings/venture/StatusBarSettings.java:301-306 | every mask bit takes the requested state and every other bit keeps the value's |
| BitField.GetBit | src/com/android/settings/venture/StatusBarSettings.java:308-310 | `getBit`: the masked value equals the mask; what that means is stated by `BitField.GetBitIsExactMatch` (every mask bit is set) and `BitField.ReadBack` (it reads back what `SetBit` wrote) |
| BitField.GetBitIsExactMatch | src/com/android/settings/venture/StatusBarSettings.java:308-310 | `getBit` passes exactly when every bit of the mask is set in the value |
| BitField.GetBitIsNotAnyBit | src/com/android/settings/venture/StatusBarSettings.java:308-310 | a value with one mask bit but not another fails although it shares a bit with the mask |
| BitField.EmptyMaskPasses | src/com/android/settings/venture/StatusBarSettings.java:308-310 | the empty mask passes on every value |
| BitField.ReadBack | src/com/android/settings/venture/StatusBarSettings.java:301-310 | `getBit` after `setBit` on a nonempty mask returns the state written |
| BitField.NonzeroHasBit | src/com/android/settings/venture/StatusBarSettings.java:308-310 | a mask other than 0 has a set bit |
| BitField.GetBitMeansSetIsNoOp | src/com/android/settings/venture/StatusBarSettings.java:301-310 | `getBit` passes exactly when setting the mask leaves the value unchanged |
| BitField.SetBitIdempotent | src/com/android/settings/venture/StatusBarSettings.java:301-306 | writing the same state twice equals writing it once |
| BitField.SetBitLastWins | src/com/android/settings/venture/StatusBarSettings.java:301-306 | of two writes to one mask the second decides |
| BitField.SetBitCommutes | src/com/android/settings/venture/StatusBarSettings.java:177-178 | writes to disjoint masks may be swapped |
| BitField.SetBitOwnState | src/com/android/settings/venture/StatusBarSettings.java:301-310 | writing back the state `getBit` reads is a no-op exactly when the value holds the mask wholly or not at all |
| Options.IndexOf | src/com/android/settings/venture/StatusBarSettings.java:181 | the position found holds the value and no later entry does; -1 exactly when the value is absent |
| Options.IndexOfUnique | src/com/android/settings/venture/StatusBarSettings.java:154 | among distinct entries the position found is the value's only position |
| TrafficCodec.UpdateState | src/com/android/settings/venture/StatusBarSettings.java:176-178 | only the up and down bits change, and each reads back as in the chosen entry's value |
| TrafficCodec.UpdateUnit | src/com/android/settings/venture/StatusBarSettings.java:186 | only the unit bits change, and they read back as set exactly when the choice is 1 |
| TrafficCodec.UpdatePeriod | src/com/android/settings/venture/StatusBarSettings.java:193-194 | for a fitting period the wrapping sum equals the bitwise union, nothing outside the period mask moves, and the period reads back |
| TrafficCodec.PeriodReadsBack | src/com/android/settings/venture/StatusBarSettings.java:165 | a fitting period shifted into a word whose period bits are clear is decoded as itself |
| TrafficCodec.StateKey | src/com/android/settings/venture/StatusBarSettings.java:153 | masking with `MASK_UP + MASK_DOWN` is masking with the union of the flags when they are disjoint |
| TrafficCodec.UnitIndex | src/com/android/settings/venture/StatusBarSettings.java:161 | the unit picker's position is 0 or 1 |
| TrafficCodec.PeriodOf | src/com/android/settings/venture/StatusBarSettings.java:165 | the decoded period is never negative and fits in 16 bits |
| TrafficCodec.Decode | src/com/android/settings/venture/StatusBarSettings.java:153-167 | the four fields the open screen reads from a word; `TrafficCodec.DecodeEncode` and `TrafficCodec.EncodeDecode` prove it inverse to `Encode` on canonical words |
| TrafficCodec.Encode | src/com/android/settings/venture/StatusBarSettings.java:176-194 | the word the three picker writes build from 0; `TrafficCodec.DecodeEncode` proves it decodes back to the fields written |
| TrafficCodec.AgreeOffKeepsGetBit | src/com/android/settings/venture/StatusBarSettings.java:308-310 | words that differ only on one mask read the same on any mask disjoint from it |
| TrafficCodec.AgreeOffKeepsPeriod | src/com/android/settings/venture/StatusBarSettings.java:165 | words that differ only on one mask decode the same period under a mask disjoint from it |
| TrafficCodec.DecodeEncode | src/com/android/settings/venture/StatusBarSettings.java:153-168 | a word built by the three picker writes decodes to the four fields written |
| TrafficCodec.EncodeDecode | src/com/android/settings/venture/StatusBarSettings.java:153-168 | a word with no stray bits, rebuilt from its decoded fields, is itself |
| TrafficCodec.PeriodOfFits | src/com/android/settings/venture/StatusBarSettings.java:165 | the decoded period fits the period write and shifts back to exactly the word's period bits |
| TrafficCodec.UpdateStateKeepsUnitAndPeriod | src/com/android/settings/venture/StatusBarSettings.java:176-178 | the up/down write leaves the decoded unit and period as they were |
| TrafficCodec.UpdateUnitKeepsOthers | src/com/android/settings/venture/StatusBarSettings.java:186 | the unit write leaves the decoded flags and period as they were |
| TrafficCodec.UpdatePeriodKeepsOthers | src/com/android/settings/venture/StatusBarSettings.java:194 | a fitting period write leaves the decoded flags and unit as they were |
| TrafficCodec.UnitRoundTrip | src/com/android/settings/venture/StatusBarSettings.java:161 | after a unit write, the unit picker opens at 1 exactly when the choice was 1 |
| TrafficCodec.UpdateStateKey | src/com/android/settings/venture/StatusBarSettings.java:176-178 | after an up/down write, the key the open screen looks up is the flag part of the chosen value |
| TrafficCodec.UpdateStateKeepsWholeMasks | src/com/android/settings/venture/StatusBarSettings.java:176-177 | for any chosen value, the key after an up/down write holds a flag mask exactly when the value holds all of that mask's bits; partly held masks and bits outside the masks are lost |
| Summaries.QuickPulldownSummary | src/com/android/settings/venture/StatusBarSettings.java:252-266 | off exactly for 0; otherwise the left edge exactly when "value is 2" differs from "layout is right-to-left" |
| Summaries.QuickValue | src/com/android/settings/venture/StatusBarSettings.java:252-266 | every quick summary has a stored value in 0..2 |
| Summaries.QuickValueShows | src/com/android/settings/venture/StatusBarSettings.java:252-266 | the value `QuickValue` picks for a summary shows that summary |
| Summaries.QuickSummaryValue | src/com/android/settings/venture/StatusBarSettings.java:252-266 | each of 0, 1 and 2 is the value picked for its own summary |
| Summaries.QuickMirror | src/com/android/settings/venture/StatusBarSettings.java:259-263 | switching the layout direction mirrors the edge of every nonzero value |
| Summaries.QuickOtherValues | src/com/android/settings/venture/StatusBarSettings.java:261-263 | every value other than 0 and 2, negative ones included, shows as 1 does |
| Summaries.SmartPulldownSummary | src/com/android/settings/venture/StatusBarSettings.java:268-291 | off exactly for 0, dismissable exactly for 1, persistent exactly for 2 |
| Summaries.SmartValue | src/com/android/settings/venture/StatusBarSettings.java:268-291 | every smart summary has a stored value in 0..3 |
| Summaries.SmartValueShows | src/com/android/settings/venture/StatusBarSettings.java:268-291 | the value `SmartValue` picks for a summary shows that summary |
| Summaries.SmartSummaryValue | src/com/android/settings/venture/StatusBarSettings.java:268-291 | each of 0 to 3 is the value picked for its own summary |
| Summaries.SmartOtherValues | src/com/android/settings/venture/StatusBarSettings.java:283-285 | every value outside 0..2, negative ones included, shows all notifications |
| StatusBarScreen.Gate | src/com/android/settings/venture/StatusBarSettings.java:238-250 | the four dependent controls are enabled together, exactly for a positive picker position |
| StatusBarScreen.GateOnLookup | src/com/android/settings/venture/StatusBarSettings.java:153-155 | the lookup on open enables the controls exactly when the value is an up/down entry past the first |
| StatusBarScreen.OpenTraffic | src/com/android/settings/venture/StatusBarSettings.java:151-169 | the up/down picker opens at the entry holding the word's flag part, else at 0 with the controls disabled; the unit picker at 1 exactly when `getBit` passes; the period picker at the entry holding the decoded period, else at 1 |
| StatusBarScreen.Open | src/com/android/settings/venture/StatusBarSettings.java:102-170 | the pulldown pickers appear exactly on a phone and the traffic part exactly when traffic statistics are supported; the battery position, quick and smart values, autohide (checked exactly when 1 is stored), threshold and traffic word are the stored values or the defaults 0, 1, 0, 0, 10 and 0; the summaries follow the quick and smart values |
| StatusBarScreen.OpenEmptyStore | src/com/android/settings/venture/StatusBarSettings.java:102-152 | with nothing stored: quick pulldown from the right (left in a right-to-left layout), smart pulldown off, autohide off, threshold 10, battery picker at the entry for style 0, traffic word all clear |
| StatusBarScreen.Put | src/com/android/settings/venture/StatusBarSettings.java:179-180 | `putInt` writes its setting and no other |
| StatusBarScreen.GetInt | src/com/android/settings/venture/StatusBarSettings.java:103-104 | `Settings.System.getInt`: the stored value when the setting is stored, the caller's default otherwise |
| StatusBarScreen.TrafficWord | src/com/android/settings/venture/StatusBarSettings.java:176-194 | the traffic word after each of the three traffic changes; its meaning is given by the contracts of `TrafficCodec.UpdateState`, `UpdateUnit` and `UpdatePeriod` and by the `ReopenAfter` lemmas |
| StatusBarScreen.AfterLookup | src/com/android/settings/venture/StatusBarSettings.java:181-182 | the entry lookup after a write fails exactly when the value is not an entry; otherwise it shows the entry found |
| StatusBarScreen.OnChange | src/com/android/settings/venture/StatusBarSettings.java:173-232 | declines exactly the preferences it does not own; writes exactly the changed preference's setting; fails in the entry lookup exactly when a list picker's value is not among its entries; only the traffic pickers move the traffic word, which is what they store |
| StatusBarScreen.ReopenAfterStateChange | src/com/android/settings/venture/StatusBarSettings.java:175-184 | after an up/down change, reopening positions the picker at that entry with the same gate, and keeps the unit and period positions |
| StatusBarScreen.StateChangeReadsBack | src/com/android/settings/venture/StatusBarSettings.java:176-180 | the stored word loads back unchanged, its lookup key is the chosen value, and its unit and period are kept |
| StatusBarScreen.ReopenAfterUnitChange | src/com/android/settings/venture/StatusBarSettings.java:185-191 | after a unit change, reopening puts the unit picker at 1 exactly when the choice was 1 |
| StatusBarScreen.ReopenAfterPeriodChange | src/com/android/settings/venture/StatusBarSettings.java:192-199 | after a fitting period change, reopening positions the period picker at that entry and keeps the flags and unit |
| StatusBarScreen.ReopenAfterOtherChange | src/com/android/settings/venture/StatusBarSettings.java:200-222 | after an autohide, threshold, quick or smart pulldown change, reopening shows the written value or the summary the change showed |

## Left out

- Persistence: the settings store is a map from setting to `int`, and the content resolver is not modelled.
- Locale lookup, the `TrafficStats` probe and `DeviceUtils.isPhone` are not modelled; they become the inputs `rtl`, `trafficSupported` and `isPhone`.
- Resource loading (`loadResources`): the four masks are parameters, and `Masks.Valid` states the layout the proofs assume.
- Strings: summaries are chosen as tokens, so string resources, formatting and `toLowerCase` are not modelled.
- Entry values as text: a picker's value is its `int`. Entry values are taken to be canonical decimals, so `Integer.valueOf`, `String.valueOf` and the unit's comparison with `"1"` agree with `int` equality. Parse failures of `Integer.valueOf` are not modelled.
- `ListPreference.findIndexOfValue` belongs to the Android framework and its code is not in the source. `Options.IndexOf` models it as the framework's search from the last entry value, returning -1 when the value is absent.
- The picker widgets: only the position chosen is modelled. `setValueIndex` with a position past a short entry list is not modelled.
- The entry lookup's failure is modelled as the `EntryLookupFailed` outcome; the exception it raises and what the framework does next are not.
- `onPreferenceTreeClick` only delegates to the superclass (lines 234-236) and is not modelled.
- The threshold's `/ 1` on open and `* 1` on change are identities on `int` and are written as the value itself.
- Listener registration: `OnChange` does not model which preferences have the screen as their change listener (lines 107, 116, 123, 139, 146, 159, 163, 169). The three traffic pickers are registered only when traffic statistics are supported, and the two pulldown pickers only on a phone, so in the other cases `onPreferenceChange` never sees their changes. `OnChange` takes the in-memory traffic word as a parameter.
- TrafficCodec.UpdatePeriod: states nothing for a period that does not fit the period mask. There `p << 16` can land outside the period mask and set bits of other fields or carry into them, or it can lose its high bits (65536 shifts to 0), so the period need not read back as `p`. `Bits.ShiftLeftIsMultiplication` and `Bits.AddIsModular` give the arithmetic.
- TrafficCodec.UpdateState: the up flag's read-back is stated only for disjoint up and down masks, since with overlapping masks the later down write can undo it.
- TrafficCodec.UnitIndex: its contract gives only the range; the read-back after a write is `TrafficCodec.UnitRoundTrip`.
- StatusBarScreen.ReopenAfterStateChange: assumes the chosen entry value is made of whole flag masks only, as the resource lists are expected to be. For another value the reopened key keeps only the flag masks the value holds wholly: a mask held in part is cleared and bits outside the masks are dropped (`TrafficCodec.UpdateStateKeepsWholeMasks`), so the picker need not find the value.
