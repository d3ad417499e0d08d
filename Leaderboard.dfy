/**
 * The topma image's layout (bilal.js, lines 193-197 and 258-399): the
 * canvas size, and for every ranked guild one row descriptor with its top
 * edge, its badge tier and label, its truncated name, its count text, its
 * icon or placeholder, and whether a separator follows it. Colours,
 * gradients, shadows and the random starfield are not part of the plan.
 */
module Leaderboard {
  import opened Text
  import opened Voice

  const CanvasWidth := 900
  const RowHeight := 100
  const HeaderHeight := 180
  const FooterHeight := 50
  const MaxNameLength := 25
  const Ellipsis := "..."
  /** The footer caption is drawn this far above the bottom edge. */
  const FooterInset := 25

  datatype Tier = Gold | Silver | Bronze | Standard

  /** The special badges of the first three ranks, in rank order. */
  const PodiumTiers := [Gold, Silver, Bronze]

  /** The icon is drawn when loadImage succeeds, and a flat circle otherwise. */
  datatype IconDraw = ServerIcon(url: string) | PlaceholderCircle

  datatype RowPlan = RowPlan(
    top: int,
    tier: Tier,
    badge: string,
    name: string,
    countText: string,
    icon: IconDraw,
    separator: bool)

  datatype Layout = Layout(width: int, height: int, rows: seq<RowPlan>, footerY: int)

  /** bilal.js:197. */
  function CanvasHeight(n: nat): int
  {
    HeaderHeight + n * RowHeight + FooterHeight
  }

  /** The badge tier of the row with 0-based index i (bilal.js:276-313). */
  function TierOf(i: nat): (t: Tier)
    ensures i < |PodiumTiers| ==> t == PodiumTiers[i]
    ensures t == Standard <==> i >= 3
  {
    if i < |PodiumTiers| then PodiumTiers[i] else Standard
  }

  /** `#${i+1}`: a hash sign and the 1-based rank in decimal. */
  function BadgeLabel(i: nat): (r: string)
    ensures |r| >= 2 && r[0] == '#' && IsDigits(r[1..]) && DecimalValue(r[1..]) == i + 1
    ensures r[1] != '0'
  {
    DecimalRoundTrip(i + 1);
    var r := "#" + NatToString(i + 1);
    assert r[1..] == NatToString(i + 1);
    r
  }

  /** bilal.js:365-369: a name longer than 25 is cut to 25 and given "...". */
  function DisplayName(name: string): (r: string)
    ensures |name| <= MaxNameLength ==> r == name
    ensures |name| > MaxNameLength ==> |r| == MaxNameLength + |Ellipsis| && r[MaxNameLength..] == Ellipsis
    ensures |r| <= MaxNameLength + |Ellipsis|
    ensures var keep := if |name| < MaxNameLength then |name| else MaxNameLength; name[..keep] <= r
  {
    if |name| > MaxNameLength then name[..MaxNameLength] + Ellipsis else name
  }

  /** What row i of n draws for entry e with its top edge at y, given whether its icon loads. */
  function RowFrom(e: Entry, i: nat, n: nat, iconLoads: bool, y: int): (r: RowPlan)
    ensures r.top == y && r.tier == TierOf(i) && r.badge == BadgeLabel(i)
    ensures r.name == DisplayName(e.name) && r.countText == NatToString(e.count)
    ensures r.icon == (if iconLoads then ServerIcon(e.icon) else PlaceholderCircle)
    ensures r.separator <==> i + 1 < n
  {
    RowPlan(
      y,
      TierOf(i),
      BadgeLabel(i),
      DisplayName(e.name),
      NatToString(e.count),
      if iconLoads then ServerIcon(e.icon) else PlaceholderCircle,
      i < n - 1)
  }

  /** The row planned for entry e as row i of n: its top edge is 100 pixels per row below the header. */
  function PlannedRow(e: Entry, i: nat, n: nat, iconLoads: bool): (r: RowPlan)
    ensures r.top == HeaderHeight + RowHeight * i
    ensures r == RowFrom(e, i, n, iconLoads, r.top)
  {
    RowFrom(e, i, n, iconLoads, HeaderHeight + RowHeight * i)
  }

  /**
   * The render loop of bilal.js:258-393, recording what each iteration
   * draws. `iconLoads` says for a URL whether loadImage succeeds.
   */
  method PlanLayout(entries: seq<Entry>, iconLoads: string -> bool) returns (layout: Layout)
    ensures layout.width == CanvasWidth && layout.height == CanvasHeight(|entries|)
    ensures layout.footerY == layout.height - FooterInset
    ensures |layout.rows| == |entries|
    ensures forall i :: 0 <= i < |entries| ==>
      layout.rows[i] == PlannedRow(entries[i], i, |entries|, iconLoads(entries[i].icon))
    ensures |entries| >= 1 ==> layout.rows[0].top == HeaderHeight
    ensures forall i :: 0 <= i < |entries| - 1 ==> layout.rows[i + 1].top == layout.rows[i].top + RowHeight
    ensures |entries| >= 1 ==>
      layout.rows[|entries| - 1].top + RowHeight + FooterHeight == layout.height
    ensures forall i :: 0 <= i < |entries| ==> (layout.rows[i].separator <==> i < |entries| - 1)
  {
    var n := |entries|;
    var rows: seq<RowPlan> := [];
    var y := HeaderHeight;
    for i := 0 to n
      invariant |rows| == i
      invariant y == HeaderHeight + RowHeight * i
      invariant forall k :: 0 <= k < i ==> rows[k] == PlannedRow(entries[k], k, n, iconLoads(entries[k].icon))
    {
      var guild := entries[i];
      var row := RowFrom(guild, i, n, iconLoads(guild.icon), y);
      assert row == PlannedRow(guild, i, n, iconLoads(guild.icon));
      rows := rows + [row];
      y := y + RowHeight;
    }
    var height := CanvasHeight(n);
    layout := Layout(CanvasWidth, height, rows, height - FooterInset);
    PlannedRowsStack(entries, iconLoads, rows);
  }

  /** Planned rows start below the header, sit 100 pixels apart and end at the footer. */
  lemma PlannedRowsStack(entries: seq<Entry>, iconLoads: string -> bool, rows: seq<RowPlan>)
    requires |rows| == |entries|
    requires forall i :: 0 <= i < |entries| ==>
      rows[i] == PlannedRow(entries[i], i, |entries|, iconLoads(entries[i].icon))
    ensures |entries| >= 1 ==> rows[0].top == HeaderHeight
    ensures forall i :: 0 <= i < |entries| - 1 ==> rows[i + 1].top == rows[i].top + RowHeight
    ensures |entries| >= 1 ==> rows[|entries| - 1].top + RowHeight + FooterHeight == CanvasHeight(|entries|)
    ensures forall i :: 0 <= i < |entries| ==> (rows[i].separator <==> i < |entries| - 1)
  {
    var n := |entries|;
    forall i | 0 <= i < n - 1 ensures rows[i + 1].top == rows[i].top + RowHeight {
      assert rows[i] == PlannedRow(entries[i], i, n, iconLoads(entries[i].icon));
      assert rows[i + 1] == PlannedRow(entries[i + 1], i + 1, n, iconLoads(entries[i + 1].icon));
    }
    if n >= 1 {
      assert rows[n - 1] == PlannedRow(entries[n - 1], n - 1, n, iconLoads(entries[n - 1].icon));
    }
  }
}
