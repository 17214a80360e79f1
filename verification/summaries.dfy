/** The summaries the screen shows under the two pulldown pickers, as the
    choice of which localised string to show rather than the text itself. */
module Summaries {
  import opened Bits

  /** The edge of the status bar a quick pulldown is pulled from. */
  datatype Side = Left | Right
  {
    /** The other edge. */
    function Opposite(): Side
    {
      if this == Left then Right else Left
    }
  }

  /** The quick-pulldown summary: off, or on from one edge. */
  datatype QuickSummary = QuickOff | QuickFrom(side: Side)

  /** `updateQuickPulldownSummary`: 0 is off; 2 is the left edge and any
      other value the right edge, both mirrored under a right-to-left
      layout. */
  function QuickPulldownSummary(value: JavaInt, rtl: bool): (r: QuickSummary)
    ensures r == QuickOff <==> value == 0
    ensures r.QuickFrom? ==> (r.side == Left <==> (value == 2) != rtl)
  {
    if value == 0 then QuickOff
    else if value == 2 then QuickFrom(if rtl then Right else Left)
    else QuickFrom(if rtl then Left else Right)
  }

  /** The stored value that selects a quick-pulldown summary: 0 for off, 2
      for the edge value 2 selects under this layout, 1 for the other. */
  function QuickValue(s: QuickSummary, rtl: bool): (v: JavaInt)
    ensures 0 <= v <= 2
  {
    match s
    case QuickOff => 0
    case QuickFrom(side) => if (side == Left) != rtl then 2 else 1
  }

  /** Every summary is shown for the value `QuickValue` gives it. */
  lemma QuickValueShows(s: QuickSummary, rtl: bool)
    ensures QuickPulldownSummary(QuickValue(s, rtl), rtl) == s
  {
  }

  /** The values 0, 1 and 2 are the ones `QuickValue` gives back for their
      own summaries. */
  lemma QuickSummaryValue(value: JavaInt, rtl: bool)
    requires 0 <= value <= 2
    ensures QuickValue(QuickPulldownSummary(value, rtl), rtl) == value
  {
  }

  /** Switching the layout direction mirrors the edge of every nonzero
      value. */
  lemma QuickMirror(value: JavaInt, rtl: bool)
    requires value != 0
    ensures QuickPulldownSummary(value, !rtl).side == QuickPulldownSummary(value, rtl).side.Opposite()
  {
  }

  /** Every value other than 0 and 2, negative ones included, is shown as
      1 is. */
  lemma QuickOtherValues(value: JavaInt, rtl: bool)
    requires value != 0 && value != 2
    ensures QuickPulldownSummary(value, rtl) == QuickPulldownSummary(1, rtl)
  {
  }

  /** The smart-pulldown summary. */
  datatype SmartSummary = SmartOff | Dismissable | Persistent | AllNotifications

  /** `updateSmartPulldownSummary`: 0 is off, 1 dismissable notifications, 2
      persistent ones, and every other value all notifications. */
  function SmartPulldownSummary(value: JavaInt): (r: SmartSummary)
    ensures r == SmartOff <==> value == 0
    ensures r == Dismissable <==> value == 1
    ensures r == Persistent <==> value == 2
  {
    if value == 0 then SmartOff
    else if value == 1 then Dismissable
    else if value == 2 then Persistent
    else AllNotifications
  }

  /** The stored value that selects a smart-pulldown summary. */
  function SmartValue(s: SmartSummary): (v: JavaInt)
    ensures 0 <= v <= 3
  {
    match s
    case SmartOff => 0
    case Dismissable => 1
    case Persistent => 2
    case AllNotifications => 3
  }

  /** Every summary is shown for the value `SmartValue` gives it. */
  lemma SmartValueShows(s: SmartSummary)
    ensures SmartPulldownSummary(SmartValue(s)) == s
  {
  }

  /** The values 0 to 3 are the ones `SmartValue` gives back for their own
      summaries. */
  lemma SmartSummaryValue(value: JavaInt)
    requires 0 <= value <= 3
    ensures SmartValue(SmartPulldownSummary(value)) == value
  {
  }

  /** Every value outside 0, 1 and 2, negative ones included, is shown as
      all notifications. */
  lemma SmartOtherValues(value: JavaInt)
    requires value < 0 || value > 2
    ensures SmartPulldownSummary(value) == AllNotifications
  {
  }
}
