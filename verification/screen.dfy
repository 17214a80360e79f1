/** The status-bar settings screen around the codec: what it shows when it
    opens, and how it reacts when one of its preferences changes. The system
    settings store is a map from setting to stored `int`; the list pickers
    are their entry values. */
module StatusBarScreen {
  import opened Bits
  import opened BitField
  import opened Options
  import opened TrafficCodec
  import opened Summaries

  /** The system settings the screen reads and writes. */
  datatype Key = BatteryStyle | QuickPulldown | SmartPulldown
               | TrafficAutohide | AutohideThreshold | TrafficState

  /** The system settings store, as far as this screen sees it. */
  type Store = map<Key, JavaInt>

  /** `Settings.System.getInt` with a default for a setting never stored. */
  function GetInt(store: Store, key: Key, default: JavaInt): (v: JavaInt)
    ensures key in store ==> v == store[key]
    ensures key !in store ==> v == default
  {
    if key in store then store[key] else default
  }

  /** The entry values of the four list pickers, read from resources. */
  datatype Pickers = Pickers(battery: seq<JavaInt>, state: seq<JavaInt>,
                             unit: seq<JavaInt>, period: seq<JavaInt>)

  /** Whether the four controls that depend on the traffic display are
      enabled. */
  datatype Controls = Controls(unit: bool, period: bool, autohide: bool, threshold: bool)

  /** `updateNetworkTrafficState`: the four controls are enabled together,
      exactly for a positive picker position; position 0 (the "off" entry)
      and the not-found position -1 disable them. */
  function Gate(index: int): (c: Controls)
    ensures c.unit == c.period && c.period == c.autohide && c.autohide == c.threshold
    ensures c.unit <==> index > 0
  {
    if index <= 0 then Controls(false, false, false, false)
    else Controls(true, true, true, true)
  }

  /** Looking a value up in the up/down picker enables the controls exactly
      when the value is an entry past the first. */
  lemma GateOnLookup(values: seq<JavaInt>, v: JavaInt)
    ensures Gate(IndexOf(values, v)).unit <==> exists j | 0 < j < |values| :: values[j] == v
  {
    var i := IndexOf(values, v);
    if exists j | 0 < j < |values| :: values[j] == v {
      var j :| 0 < j < |values| && values[j] == v;
      assert j <= i;
    }
  }

  /** The traffic part of the opened screen: the packed word loaded from the
      store and the three picker positions and the gate derived from it. */
  datatype TrafficOpen =
    | TrafficUnsupported
    | TrafficShown(packed: Word, stateIndex: int, unitIndex: int, periodIndex: int,
                   controls: Controls)

  /** The pulldown part of the opened screen; on a device that is not a
      phone both pickers are removed. */
  datatype PulldownOpen =
    | NotPhone
    | PulldownsShown(quick: JavaInt, quickSummary: QuickSummary,
                     smart: JavaInt, smartSummary: SmartSummary)

  /** What the screen shows once open. */
  datatype Screen = Screen(batteryIndex: int, pulldowns: PulldownOpen,
                           autohide: bool, threshold: JavaInt, traffic: TrafficOpen)

  /** The decode on open, for a device that reports traffic statistics: the
      up/down picker is positioned at the entry whose value is the word's
      up/down bits, or at 0 when there is none, and the gate follows the raw
      lookup; the unit picker is at 1 exactly when the unit mask is set; the
      period picker is at the entry of the stored period, or at 1. */
  function OpenTraffic(packed: Word, m: Masks, pickers: Pickers): (t: TrafficOpen)
    ensures t.TrafficShown? && t.packed == packed
    ensures t.stateIndex >= 0 && t.periodIndex >= 0
    ensures ToInt(StateKey(packed, m)) in pickers.state ==>
              t.stateIndex < |pickers.state| && pickers.state[t.stateIndex] == ToInt(StateKey(packed, m))
    ensures ToInt(StateKey(packed, m)) !in pickers.state ==> t.stateIndex == 0 && !t.controls.unit
    ensures t.controls == Gate(IndexOf(pickers.state, ToInt(StateKey(packed, m))))
    ensures t.unitIndex == 1 <==> GetBit(packed, m.unit)
    ensures PeriodOf(packed, m.period) in pickers.period ==>
              t.periodIndex < |pickers.period| && pickers.period[t.periodIndex] == PeriodOf(packed, m.period)
    ensures PeriodOf(packed, m.period) !in pickers.period ==> t.periodIndex == 1
  {
    var stateAt := IndexOf(pickers.state, ToInt(StateKey(packed, m)));
    var periodAt := IndexOf(pickers.period, PeriodOf(packed, m.period));
    TrafficShown(packed,
                 if stateAt >= 0 then stateAt else 0,
                 UnitIndex(packed, m.unit),
                 if periodAt >= 0 then periodAt else 1,
                 Gate(stateAt))
  }

  /** `onCreate`: every setting read with its default (battery style 0,
      quick pulldown 1, smart pulldown 0, autohide off, threshold 10,
      traffic word 0); the pulldowns only on a phone, the traffic part only
      when the device reports traffic statistics. */
  function Open(store: Store, m: Masks, pickers: Pickers, isPhone: bool, rtl: bool,
                trafficSupported: bool): (s: Screen)
    ensures s.pulldowns.PulldownsShown? <==> isPhone
    ensures s.traffic.TrafficShown? <==> trafficSupported
    ensures s.pulldowns.PulldownsShown? ==>
              s.pulldowns.quickSummary == QuickPulldownSummary(s.pulldowns.quick, rtl) &&
              s.pulldowns.smartSummary == SmartPulldownSummary(s.pulldowns.smart)
    ensures s.traffic.TrafficShown? ==> s.traffic == OpenTraffic(s.traffic.packed, m, pickers)
    ensures s.batteryIndex == IndexOf(pickers.battery, GetInt(store, BatteryStyle, 0))
    ensures s.pulldowns.PulldownsShown? ==>
              s.pulldowns.quick == GetInt(store, QuickPulldown, 1) &&
              s.pulldowns.smart == GetInt(store, SmartPulldown, 0)
    ensures s.autohide <==> GetInt(store, TrafficAutohide, 0) == 1
    ensures s.threshold == GetInt(store, AutohideThreshold, 10)
    ensures s.traffic.TrafficShown? ==> s.traffic.packed == FromInt(GetInt(store, TrafficState, 0))
  {
    var quick := GetInt(store, QuickPulldown, 1);
    var smart := GetInt(store, SmartPulldown, 0);
    Screen(IndexOf(pickers.battery, GetInt(store, BatteryStyle, 0)),
           if isPhone
           then PulldownsShown(quick, QuickPulldownSummary(quick, rtl),
                               smart, SmartPulldownSummary(smart))
           else NotPhone,
           GetInt(store, TrafficAutohide, 0) == 1,
           GetInt(store, AutohideThreshold, 10),
           if trafficSupported
           then OpenTraffic(FromInt(GetInt(store, TrafficState, 0)), m, pickers)
           else TrafficUnsupported)
  }

  /** On a store holding none of the settings, the screen opens with quick
      pulldown on from the right edge (the left under a right-to-left
      layout), smart pulldown off, autohide off, a threshold of 10, the
      battery picker at the entry for style 0 and an all-clear traffic
      word. */
  lemma OpenEmptyStore(m: Masks, pickers: Pickers, rtl: bool, trafficSupported: bool)
    ensures var s := Open(map[], m, pickers, true, rtl, trafficSupported);
            s.pulldowns.quickSummary == QuickFrom(if rtl then Left else Right) &&
            s.pulldowns.smartSummary == SmartOff &&
            !s.autohide && s.threshold == 10 &&
            s.batteryIndex == IndexOf(pickers.battery, 0) &&
            (s.traffic.TrafficShown? ==> s.traffic.packed == Zero())
  {
    ZeroFromNat(32);
  }

  /** A preference change, with the new value the picker reports. */
  datatype Change =
    | TrafficStateChanged(value: JavaInt)
    | TrafficUnitChanged(value: JavaInt)
    | TrafficPeriodChanged(value: JavaInt)
    | AutohideChanged(checked: bool)
    | ThresholdChanged(value: JavaInt)
    | QuickPulldownChanged(value: JavaInt)
    | SmartPulldownChanged(value: JavaInt)
    | BatteryStyleChanged(value: JavaInt)
    | OtherChanged

  /** The setting a handled change writes. */
  function KeyOf(c: Change): Key
    requires !c.OtherChanged?
  {
    match c
    case TrafficStateChanged(_) => TrafficState
    case TrafficUnitChanged(_) => TrafficState
    case TrafficPeriodChanged(_) => TrafficState
    case AutohideChanged(_) => TrafficAutohide
    case ThresholdChanged(_) => AutohideThreshold
    case QuickPulldownChanged(_) => QuickPulldown
    case SmartPulldownChanged(_) => SmartPulldown
    case BatteryStyleChanged(_) => BatteryStyle
  }

  /** The change's value is not among its picker's entry values, so the
      entry lookup after the write finds no entry. Only the four list
      pickers look an entry up. */
  predicate MissingEntry(pickers: Pickers, c: Change)
  {
    match c
    case TrafficStateChanged(v) => v !in pickers.state
    case TrafficUnitChanged(v) => v !in pickers.unit
    case TrafficPeriodChanged(v) => v !in pickers.period
    case BatteryStyleChanged(v) => v !in pickers.battery
    case _ => false
  }

  /** What the screen updates beside the store after a handled change. */
  datatype Shown =
    | StateShown(entry: nat, controls: Controls)
    | EntryShown(entry: nat)
    | QuickShown(quick: QuickSummary)
    | SmartShown(smart: SmartSummary)
    | NothingShown

  /** The outcome of a change: handled (the listener returns true); or the
      value written, the in-memory traffic word updated, and then the entry
      lookup failing on position -1; or not this screen's preference (the
      listener returns false and nothing is written). */
  datatype Reaction =
    | Accepted(store: Store, packed: Word, shown: Shown)
    | EntryLookupFailed(store: Store, packed: Word)
    | Declined

  /** `after` is `before` with setting `k` written and nothing else. */
  predicate WritesOnly(before: Store, after: Store, k: Key)
  {
    k in after && after.Keys == before.Keys + {k} &&
    forall j | j in before && j != k :: after[j] == before[j]
  }

  /** The entry position and the read-back step of a list picker change. */
  function AfterLookup(store: Store, packed: Word, values: seq<JavaInt>, v: JavaInt,
                       shown: nat -> Shown): (r: Reaction)
    ensures r.EntryLookupFailed? <==> v !in values
    ensures r.Accepted? ==> r.shown == shown(IndexOf(values, v))
    ensures !r.Declined? && r.store == store && r.packed == packed
  {
    var i := IndexOf(values, v);
    if i < 0 then EntryLookupFailed(store, packed) else Accepted(store, packed, shown(i))
  }

  /** `putInt`: setting `k` now holds `v`. */
  function Put(store: Store, k: Key, v: JavaInt): (s: Store)
    ensures WritesOnly(store, s, k) && s[k] == v
  {
    store[k := v]
  }

  /** The traffic word after a change of one of the three traffic pickers. */
  function TrafficWord(packed: Word, m: Masks, c: Change): Word
    requires c.TrafficStateChanged? || c.TrafficUnitChanged? || c.TrafficPeriodChanged?
  {
    match c
    case TrafficStateChanged(v) => UpdateState(packed, m, v)
    case TrafficUnitChanged(v) => UpdateUnit(packed, m.unit, v)
    case TrafficPeriodChanged(v) => UpdatePeriod(packed, m.period, v)
  }

  /** `onPreferenceChange`. The three traffic pickers rewrite their part of
      the in-memory traffic word and store the whole word; autohide stores 1
      or 0; the threshold, quick and smart pulldown and battery style store
      their value. A list picker then looks the value up among its entries
      and shows that entry, without a check that it was found. */
  function OnChange(store: Store, packed: Word, m: Masks, pickers: Pickers, rtl: bool,
                    c: Change): (r: Reaction)
    ensures r.Declined? <==> c.OtherChanged?
    ensures !r.Declined? ==> WritesOnly(store, r.store, KeyOf(c))
    ensures r.EntryLookupFailed? <==> MissingEntry(pickers, c)
    ensures !r.Declined? && r.packed != packed ==>
              c.TrafficStateChanged? || c.TrafficUnitChanged? || c.TrafficPeriodChanged?
    ensures !r.Declined? && KeyOf(c) == TrafficState ==> r.store[TrafficState] == ToInt(r.packed)
  {
    match c
    case TrafficStateChanged(v) =>
      var p := TrafficWord(packed, m, c);
      AfterLookup(Put(store, TrafficState, ToInt(p)), p, pickers.state, v,
                  (i: nat) => StateShown(i, Gate(i)))
    case TrafficUnitChanged(v) =>
      var p := TrafficWord(packed, m, c);
      AfterLookup(Put(store, TrafficState, ToInt(p)), p, pickers.unit, v, (i: nat) => EntryShown(i))
    case TrafficPeriodChanged(v) =>
      var p := TrafficWord(packed, m, c);
      AfterLookup(Put(store, TrafficState, ToInt(p)), p, pickers.period, v, (i: nat) => EntryShown(i))
    case AutohideChanged(checked) =>
      Accepted(Put(store, TrafficAutohide, if checked then 1 else 0), packed, NothingShown)
    case ThresholdChanged(v) =>
      Accepted(Put(store, AutohideThreshold, v), packed, NothingShown)
    case QuickPulldownChanged(v) =>
      Accepted(Put(store, QuickPulldown, v), packed, QuickShown(QuickPulldownSummary(v, rtl)))
    case SmartPulldownChanged(v) =>
      Accepted(Put(store, SmartPulldown, v), packed, SmartShown(SmartPulldownSummary(v)))
    case BatteryStyleChanged(v) =>
      AfterLookup(Put(store, BatteryStyle, v), packed, pickers.battery, v, (i: nat) => EntryShown(i))
    case OtherChanged =>
      Declined
  }

  /** An up/down entry value made of the two flag masks only, each wholly or
      not at all. */
  predicate FlagValue(m: Masks, v: JavaInt)
  {
    Within(FromInt(v), m.Flags()) && AllOrNone(FromInt(v), m.up) && AllOrNone(FromInt(v), m.down)
  }

  /** After the up/down picker changes to one of its entries, reopening the
      screen positions the picker at that entry with the same gate the
      change showed, and leaves the unit and period positions where they
      were. */
  lemma ReopenAfterStateChange(store: Store, m: Masks, pickers: Pickers, rtl: bool, v: JavaInt)
    requires m.Valid()
    requires v in pickers.state && FlagValue(m, v)
    ensures var packed := FromInt(GetInt(store, TrafficState, 0));
            var r := OnChange(store, packed, m, pickers, rtl, TrafficStateChanged(v));
            var before := Open(store, m, pickers, false, rtl, true).traffic;
            var after := Open(r.store, m, pickers, false, rtl, true).traffic;
            r.Accepted? && after.stateIndex < |pickers.state| && pickers.state[after.stateIndex] == v &&
            r.shown == StateShown(after.stateIndex, after.controls) &&
            after.unitIndex == before.unitIndex && after.periodIndex == before.periodIndex
  {
    var packed := FromInt(GetInt(store, TrafficState, 0));
    var p := UpdateState(packed, m, v);
    StateChangeReadsBack(packed, m, v);
    var r := OnChange(store, packed, m, pickers, rtl, TrafficStateChanged(v));
    assert r.store[TrafficState] == ToInt(p);
    assert Open(r.store, m, pickers, false, rtl, true).traffic == OpenTraffic(p, m, pickers);
  }

  /** The word an up/down change stores reads back, through the store's
      `int`, with the changed flags as its state key and the unit and period
      untouched. */
  lemma StateChangeReadsBack(packed: Word, m: Masks, v: JavaInt)
    requires m.Valid() && FlagValue(m, v)
    ensures var p := UpdateState(packed, m, v);
            FromInt(ToInt(p)) == p && ToInt(StateKey(p, m)) == v &&
            UnitIndex(p, m.unit) == UnitIndex(packed, m.unit) &&
            PeriodOf(p, m.period) == PeriodOf(packed, m.period)
  {
    var p := UpdateState(packed, m, v);
    FromIntToInt(p);
    UpdateStateKey(packed, m, v);
    assert And(FromInt(v), m.Flags()) == FromInt(v);
    ToIntFromInt(v);
    UpdateStateKeepsUnitAndPeriod(packed, m, v);
  }

  /** After the unit picker changes to one of its entries, reopening the
      screen positions it at 1 exactly when the entry's value is 1. */
  lemma ReopenAfterUnitChange(store: Store, m: Masks, pickers: Pickers, rtl: bool, v: JavaInt)
    requires m.Valid()
    requires v in pickers.unit
    ensures var packed := FromInt(GetInt(store, TrafficState, 0));
            var r := OnChange(store, packed, m, pickers, rtl, TrafficUnitChanged(v));
            var after := Open(r.store, m, pickers, false, rtl, true).traffic;
            r.Accepted? && (after.unitIndex == 1 <==> v == 1)
  {
    var packed := FromInt(GetInt(store, TrafficState, 0));
    FromIntToInt(UpdateUnit(packed, m.unit, v));
  }

  /** After the period picker changes to one of its entries that fits the
      period mask, reopening the screen positions it at that entry and
      leaves the up/down flags and unit as they were. */
  lemma ReopenAfterPeriodChange(store: Store, m: Masks, pickers: Pickers, rtl: bool, v: JavaInt)
    requires m.Valid()
    requires v in pickers.period && PeriodFits(m.period, v)
    ensures var packed := FromInt(GetInt(store, TrafficState, 0));
            var r := OnChange(store, packed, m, pickers, rtl, TrafficPeriodChanged(v));
            var after := Open(r.store, m, pickers, false, rtl, true).traffic;
            r.Accepted? && after.periodIndex < |pickers.period| && pickers.period[after.periodIndex] == v &&
            Decode(after.packed, m).up == Decode(packed, m).up &&
            Decode(after.packed, m).down == Decode(packed, m).down &&
            Decode(after.packed, m).unit == Decode(packed, m).unit
  {
    var packed := FromInt(GetInt(store, TrafficState, 0));
    FromIntToInt(UpdatePeriod(packed, m.period, v));
    UpdatePeriodKeepsOthers(packed, m, v);
  }

  /** After a pulldown or autohide change, reopening the screen shows what
      the change showed, and the value written. */
  lemma ReopenAfterOtherChange(store: Store, packed: Word, m: Masks, pickers: Pickers, rtl: bool,
                               c: Change)
    requires c.QuickPulldownChanged? || c.SmartPulldownChanged? || c.AutohideChanged?
             || c.ThresholdChanged?
    ensures var r := OnChange(store, packed, m, pickers, rtl, c);
            var after := Open(r.store, m, pickers, true, rtl, false);
            r.Accepted? &&
            (c.QuickPulldownChanged? ==> r.shown == QuickShown(after.pulldowns.quickSummary)) &&
            (c.SmartPulldownChanged? ==> r.shown == SmartShown(after.pulldowns.smartSummary)) &&
            (c.AutohideChanged? ==> after.autohide == c.checked) &&
            (c.ThresholdChanged? ==> after.threshold == c.value)
  {
  }
}
