/**
 * The widget grid's layouts: one list of placed widgets per breakpoint, the
 * stored layouts accepted only with an `lg` list, and the collapse and expand
 * of one widget across every breakpoint.
 */
module WidgetGrid {
  import opened Wrappers
  import opened Text

  /** A placed widget: its key `i`, column `x`, row `y`, width `w` and height `h`, in grid units. */
  datatype Item = Item(i: string, x: int, y: int, w: int, h: int)

  /** The value under a breakpoint: a list of items, or anything that is not an array. */
  datatype LayoutValue = Items(items: seq<Item>) | NotArray

  /** A layouts object: breakpoints and their values, in key order. */
  type Layouts = seq<(string, LayoutValue)>

  const DefaultLg: seq<Item> := [
      Item(".$system-health", 9, 0, 3, 20),
      Item(".$status", 6, 0, 3, 22),
      Item(".$throughput", 2, 0, 4, 15),
      Item(".$error-time", 0, 132, 6, 14),
      Item(".$error-heatmap", 0, 22, 12, 13),
      Item(".$file-count", 0, 146, 6, 7),
      Item(".$pattern-match", 0, 72, 12, 22),
      Item(".$error-stacked-line", 0, 35, 12, 18),
      Item(".$error-stacked-bar", 0, 53, 12, 19),
      Item(".$error-groups", 0, 94, 12, 38),
      Item(".$error-treemap", 0, 0, 2, 18),
      Item(".$error-rate", 6, 145, 6, 16),
      Item(".$throughput-line", 6, 132, 6, 13)
    ]

  const DefaultMd: seq<Item> := [
      Item(".$system-health", 0, 0, 2, 20),
      Item(".$status", 0, 20, 2, 22),
      Item(".$throughput", 0, 42, 2, 15),
      Item(".$error-time", 0, 57, 2, 14),
      Item(".$error-heatmap", 0, 71, 2, 13),
      Item(".$file-count", 0, 84, 2, 7),
      Item(".$pattern-match", 0, 91, 2, 22),
      Item(".$error-stacked-line", 0, 113, 2, 18),
      Item(".$error-stacked-bar", 0, 131, 2, 19),
      Item(".$error-groups", 0, 150, 2, 38),
      Item(".$error-treemap", 0, 188, 2, 18),
      Item(".$error-rate", 0, 206, 2, 16),
      Item(".$throughput-line", 0, 222, 2, 13)
    ]

  const DefaultSm: seq<Item> := [
      Item(".$system-health", 0, 0, 1, 20),
      Item(".$status", 0, 20, 1, 22),
      Item(".$throughput", 0, 42, 1, 15),
      Item(".$error-time", 0, 57, 1, 14),
      Item(".$error-heatmap", 0, 71, 1, 13),
      Item(".$file-count", 0, 84, 1, 7),
      Item(".$pattern-match", 0, 91, 1, 22),
      Item(".$error-stacked-line", 0, 113, 1, 18),
      Item(".$error-stacked-bar", 0, 131, 1, 19),
      Item(".$error-groups", 0, 150, 1, 38),
      Item(".$error-treemap", 0, 188, 1, 18),
      Item(".$error-rate", 0, 206, 1, 16),
      Item(".$throughput-line", 0, 222, 1, 13)
    ]

  const DefaultXs: seq<Item> := [
      Item(".$system-health", 0, 0, 1, 20),
      Item(".$status", 0, 20, 1, 22),
      Item(".$throughput", 0, 42, 1, 15),
      Item(".$error-time", 0, 57, 1, 14),
      Item(".$error-heatmap", 0, 71, 1, 13),
      Item(".$file-count", 0, 84, 1, 7),
      Item(".$pattern-match", 0, 91, 1, 22),
      Item(".$error-stacked-line", 0, 113, 1, 18),
      Item(".$error-stacked-bar", 0, 131, 1, 19),
      Item(".$error-groups", 0, 150, 1, 38),
      Item(".$error-treemap", 0, 188, 1, 18),
      Item(".$error-rate", 0, 206, 1, 16),
      Item(".$throughput-line", 0, 222, 1, 13)
    ]

  const DefaultLayouts: Layouts :=
    [("lg", Items(DefaultLg)), ("md", Items(DefaultMd)), ("sm", Items(DefaultSm)), ("xs", Items(DefaultXs))]

  /** `layouts[bp]`, if the key is present. */
  function LayoutOf(ls: Layouts, bp: string): (v: Option<LayoutValue>)
    ensures v.Some? <==> exists e :: e in ls && e.0 == bp
    ensures v.Some? ==> (bp, v.value) in ls
  {
    if |ls| == 0 then None
    else if ls[0].0 == bp then Some(ls[0].1)
    else
      assert forall e :: e in ls ==> e == ls[0] || e in ls[1..];
      LayoutOf(ls[1..], bp)
  }

  /** No breakpoint appears twice, as in every JavaScript object. */
  predicate UniqueBreakpoints(ls: Layouts) {
    forall j, k :: 0 <= j < k < |ls| ==> ls[j].0 != ls[k].0
  }

  /** `items.find(d => d.i === id)` */
  function FindItem(items: seq<Item>, id: string): (r: Option<Item>)
    ensures r.Some? ==> r.value in items && r.value.i == id
    ensures r.None? <==> forall it :: it in items ==> it.i != id
  {
    if |items| == 0 then None
    else if items[0].i == id then Some(items[0])
    else
      assert forall it :: it in items ==> it == items[0] || it in items[1..];
      FindItem(items[1..], id)
  }

  /** The widget id of an item key: a leading '.$' stripped. */
  function WidgetIdOf(i: string): (id: string)
    ensures StartsWith(i, ".$") ==> i == ".$" + id
    ensures !StartsWith(i, ".$") ==> id == i
  {
    if StartsWith(i, ".$") then i[2..] else i
  }

  /** `defaultLayouts[bp]?.find(d => d.i === key)` */
  function DefaultItem(defaults: Layouts, bp: string, key: string): Option<Item> {
    match LayoutOf(defaults, bp)
    case Some(Items(ds)) => FindItem(ds, key)
    case _ => None
  }

  /**
   * One item under breakpoint `bp` after `widgetId` is collapsed or expanded:
   * a collapsed widget is two rows high, an expanded one gets its default
   * height back when its breakpoint has a default for it; every other item,
   * and every other field, stays as it was.
   */
  function CollapseItem(defaults: Layouts, bp: string, item: Item, widgetId: string, isCollapsed: bool): (r: Item)
    ensures r.i == item.i && r.x == item.x && r.y == item.y && r.w == item.w
    ensures WidgetIdOf(item.i) != widgetId ==> r == item
    ensures WidgetIdOf(item.i) == widgetId && isCollapsed ==> r.h == 2
    ensures WidgetIdOf(item.i) == widgetId && !isCollapsed && DefaultItem(defaults, bp, item.i).Some? ==>
      r.h == DefaultItem(defaults, bp, item.i).value.h
    ensures !isCollapsed && DefaultItem(defaults, bp, item.i).None? ==> r == item
  {
    if WidgetIdOf(item.i) == widgetId then
      if isCollapsed then item.(h := 2)
      else match DefaultItem(defaults, bp, item.i)
        case Some(d) => item.(h := d.h)
        case None => item
    else item
  }

  /** `layouts[bp].map(...)`: the same items in the same order, each updated. */
  function CollapseItems(defaults: Layouts, bp: string, items: seq<Item>, widgetId: string, isCollapsed: bool): (r: seq<Item>)
    ensures |r| == |items|
    ensures forall k :: 0 <= k < |items| ==> r[k] == CollapseItem(defaults, bp, items[k], widgetId, isCollapsed)
  {
    seq(|items|, k requires 0 <= k < |items| => CollapseItem(defaults, bp, items[k], widgetId, isCollapsed))
  }

  /** The layouts after the update: the breakpoints with an array, in order, their items updated. */
  function CollapseLayouts(defaults: Layouts, ls: Layouts, widgetId: string, isCollapsed: bool): (r: Layouts)
    ensures |r| <= |ls|
    ensures forall e :: e in r ==> e.1.Items?
  {
    if |ls| == 0 then []
    else CollapseEntry(defaults, ls[0], widgetId, isCollapsed) + CollapseLayouts(defaults, ls[1..], widgetId, isCollapsed)
  }

  /** One breakpoint's part of the update: its updated items, or nothing when it holds no array. */
  function CollapseEntry(defaults: Layouts, e: (string, LayoutValue), widgetId: string, isCollapsed: bool): Layouts {
    match e.1
    case Items(its) => [(e.0, Items(CollapseItems(defaults, e.0, its, widgetId, isCollapsed)))]
    case NotArray => []
  }

  /** Updating one more breakpoint appends that breakpoint's part. */
  lemma {:induction false} CollapseLayoutsSnoc(defaults: Layouts, ls: Layouts, e: (string, LayoutValue), widgetId: string, isCollapsed: bool)
    ensures CollapseLayouts(defaults, ls + [e], widgetId, isCollapsed)
      == CollapseLayouts(defaults, ls, widgetId, isCollapsed) + CollapseEntry(defaults, e, widgetId, isCollapsed)
    decreases |ls|
  {
    var entry := CollapseEntry(defaults, e, widgetId, isCollapsed);
    if |ls| == 0 {
      assert ([e])[1..] == [];
      assert entry + [] == entry;
    } else {
      var head := CollapseEntry(defaults, ls[0], widgetId, isCollapsed);
      assert (ls + [e])[0] == ls[0];
      assert (ls + [e])[1..] == ls[1..] + [e];
      CollapseLayoutsSnoc(defaults, ls[1..], e, widgetId, isCollapsed);
      var tail := CollapseLayouts(defaults, ls[1..], widgetId, isCollapsed);
      assert head + (tail + entry) == (head + tail) + entry;
    }
  }

  /**
   * Each breakpoint with an array keeps its items' count and order, each
   * item updated; a breakpoint without one is dropped.
   */
  lemma {:induction false} CollapseLayoutsLookup(defaults: Layouts, ls: Layouts, widgetId: string, isCollapsed: bool, bp: string)
    requires UniqueBreakpoints(ls)
    ensures LayoutOf(CollapseLayouts(defaults, ls, widgetId, isCollapsed), bp) ==
      (match LayoutOf(ls, bp)
       case Some(Items(its)) => Some(Items(CollapseItems(defaults, bp, its, widgetId, isCollapsed)))
       case _ => None)
    decreases |ls|
  {
    if |ls| > 0 {
      assert UniqueBreakpoints(ls[1..]);
      CollapseLayoutsLookup(defaults, ls[1..], widgetId, isCollapsed, bp);
      var rest := CollapseLayouts(defaults, ls[1..], widgetId, isCollapsed);
      if ls[0].1.Items? {
        var head := (ls[0].0, Items(CollapseItems(defaults, ls[0].0, ls[0].1.items, widgetId, isCollapsed)));
        assert CollapseLayouts(defaults, ls, widgetId, isCollapsed) == [head] + rest;
        assert ([head] + rest)[1..] == rest;
      } else {
        assert CollapseLayouts(defaults, ls, widgetId, isCollapsed) == rest;
      }
      if ls[0].0 == bp {
        FirstKeyNotAgain(ls, bp);
      }
    }
  }

  lemma FirstKeyNotAgain(ls: Layouts, bp: string)
    requires UniqueBreakpoints(ls) && |ls| > 0 && ls[0].0 == bp
    ensures LayoutOf(ls[1..], bp).None?
  {
    forall e | e in ls[1..] ensures e.0 != bp {
      var k :| 0 <= k < |ls[1..]| && ls[1..][k] == e;
      assert ls[k + 1] == e;
    }
  }

  /** Every item agrees in height with its breakpoint's default item. */
  ghost predicate DefaultHeights(defaults: Layouts, ls: Layouts) {
    forall e :: e in ls ==>
      && e.1.Items?
      && forall it :: it in e.1.items ==>
           DefaultItem(defaults, e.0, it.i).Some? && DefaultItem(defaults, e.0, it.i).value.h == it.h
  }

  /** Collapsing and then expanding a widget restores layouts whose heights are the defaults. */
  lemma {:induction false} CollapseThenExpand(defaults: Layouts, ls: Layouts, widgetId: string)
    requires DefaultHeights(defaults, ls)
    ensures CollapseLayouts(defaults, CollapseLayouts(defaults, ls, widgetId, true), widgetId, false) == ls
    decreases |ls|
  {
    if |ls| > 0 {
      assert DefaultHeights(defaults, ls[1..]) by {
        forall e | e in ls[1..] ensures e in ls { }
      }
      CollapseThenExpand(defaults, ls[1..], widgetId);
      var bp := ls[0].0;
      var its := ls[0].1.items;
      var once := CollapseItems(defaults, bp, its, widgetId, true);
      var twice := CollapseItems(defaults, bp, once, widgetId, false);
      forall k | 0 <= k < |its| ensures twice[k] == its[k] {
        assert its[k] in ls[0].1.items;
      }
      assert twice == its;
      var c := CollapseLayouts(defaults, ls, widgetId, true);
      assert c == [(bp, Items(once))] + CollapseLayouts(defaults, ls[1..], widgetId, true);
      assert c[1..] == CollapseLayouts(defaults, ls[1..], widgetId, true);
    }
  }

  /** The default layouts themselves carry their default heights. */
  lemma DefaultsHaveDefaultHeights()
    ensures DefaultHeights(DefaultLayouts, DefaultLayouts)
  {
    FindsLg();
    FindsMd();
    FindsSm();
    FindsXs();
    FourBreakpointHeights(DefaultLayouts, DefaultLg, DefaultMd, DefaultSm, DefaultXs);
  }

  /** Four breakpoint lists, each of whose items is its breakpoint's default, carry the default heights. */
  lemma FourBreakpointHeights(defaults: Layouts, lg: seq<Item>, md: seq<Item>, sm: seq<Item>, xs: seq<Item>)
    requires forall it :: it in lg ==> DefaultItem(defaults, "lg", it.i) == Some(it)
    requires forall it :: it in md ==> DefaultItem(defaults, "md", it.i) == Some(it)
    requires forall it :: it in sm ==> DefaultItem(defaults, "sm", it.i) == Some(it)
    requires forall it :: it in xs ==> DefaultItem(defaults, "xs", it.i) == Some(it)
    ensures DefaultHeights(defaults, [("lg", Items(lg)), ("md", Items(md)), ("sm", Items(sm)), ("xs", Items(xs))])
  {
  }

  lemma FindsLg()
    ensures forall it :: it in DefaultLg ==> DefaultItem(DefaultLayouts, "lg", it.i) == Some(it)
  {
    DistinctLg();
    DefaultListHeights("lg", DefaultLg);
  }

  lemma FindsMd()
    ensures forall it :: it in DefaultMd ==> DefaultItem(DefaultLayouts, "md", it.i) == Some(it)
  {
    DistinctMd();
    DefaultListHeights("md", DefaultMd);
  }

  lemma FindsSm()
    ensures forall it :: it in DefaultSm ==> DefaultItem(DefaultLayouts, "sm", it.i) == Some(it)
  {
    DistinctSm();
    DefaultListHeights("sm", DefaultSm);
  }

  lemma FindsXs()
    ensures forall it :: it in DefaultXs ==> DefaultItem(DefaultLayouts, "xs", it.i) == Some(it)
  {
    DistinctXs();
    DefaultListHeights("xs", DefaultXs);
  }

  /** From the default layouts, collapsing and expanding any widget gives the default layouts back. */
  lemma ExpandRestoresDefaults(widgetId: string)
    ensures CollapseLayouts(DefaultLayouts, CollapseLayouts(DefaultLayouts, DefaultLayouts, widgetId, true), widgetId, false)
      == DefaultLayouts
  {
    DefaultsHaveDefaultHeights();
    CollapseThenExpand(DefaultLayouts, DefaultLayouts, widgetId);
  }

  predicate DistinctKeys(ds: seq<Item>) {
    forall j, k :: 0 <= j < k < |ds| ==> ds[j].i != ds[k].i
  }

  /** The item keys every default breakpoint lists, in this order. */
  const WidgetKeys: seq<string> := [
    ".$system-health", ".$status", ".$throughput", ".$error-time", ".$error-heatmap", ".$file-count",
    ".$pattern-match", ".$error-stacked-line", ".$error-stacked-bar", ".$error-groups", ".$error-treemap",
    ".$error-rate", ".$throughput-line"
  ]

  predicate KeyedBy(ds: seq<Item>, keys: seq<string>) {
    |ds| == |keys| && forall k :: 0 <= k < |ds| ==> ds[k].i == keys[k]
  }

  lemma DistinctWidgetKeys()
    ensures forall j, k :: 0 <= j < k < |WidgetKeys| ==> WidgetKeys[j] != WidgetKeys[k]
  {
  }

  lemma KeyedDistinct(ds: seq<Item>)
    requires KeyedBy(ds, WidgetKeys)
    ensures DistinctKeys(ds)
  {
    DistinctWidgetKeys();
  }

  lemma DistinctLg() ensures DistinctKeys(DefaultLg) { assert KeyedBy(DefaultLg, WidgetKeys); KeyedDistinct(DefaultLg); }
  lemma DistinctMd() ensures DistinctKeys(DefaultMd) { assert KeyedBy(DefaultMd, WidgetKeys); KeyedDistinct(DefaultMd); }
  lemma DistinctSm() ensures DistinctKeys(DefaultSm) { assert KeyedBy(DefaultSm, WidgetKeys); KeyedDistinct(DefaultSm); }
  lemma DistinctXs() ensures DistinctKeys(DefaultXs) { assert KeyedBy(DefaultXs, WidgetKeys); KeyedDistinct(DefaultXs); }

  /** A default list whose keys are distinct finds each of its items. */
  lemma DefaultListHeights(bp: string, ds: seq<Item>)
    requires LayoutOf(DefaultLayouts, bp) == Some(Items(ds))
    requires DistinctKeys(ds)
    ensures forall it :: it in ds ==> DefaultItem(DefaultLayouts, bp, it.i) == Some(it)
  {
    forall it | it in ds ensures FindItem(ds, it.i) == Some(it) {
      FindDistinct(ds, it);
    }
  }

  lemma {:induction false} FindDistinct(ds: seq<Item>, it: Item)
    requires it in ds
    requires DistinctKeys(ds)
    ensures FindItem(ds, it.i) == Some(it)
    decreases |ds|
  {
    if ds[0] != it {
      assert ds[0].i != it.i by {
        var k :| 0 <= k < |ds| && ds[k] == it;
      }
      FindDistinct(ds[1..], it);
    }
  }

  /** What `localStorage` held under 'dashboardLayouts', once parsed. */
  datatype Stored = NotStored | Malformed | StoredObject(layouts: Layouts)

  /** `loadSavedLayouts`: a stored object is used only when its `lg` is an array. */
  function LoadSavedLayouts(stored: Stored): (r: Layouts)
    ensures stored.StoredObject? && LayoutOf(stored.layouts, "lg").Some? && LayoutOf(stored.layouts, "lg").value.Items?
      ==> r == stored.layouts
    ensures !(stored.StoredObject? && LayoutOf(stored.layouts, "lg").Some? && LayoutOf(stored.layouts, "lg").value.Items?)
      ==> r == DefaultLayouts
  {
    match stored
    case StoredObject(ls) =>
      (match LayoutOf(ls, "lg")
       case Some(Items(_)) => ls
       case _ => DefaultLayouts)
    case _ => DefaultLayouts
  }

  /** Whatever is stored, the loaded layouts have an `lg` list. */
  lemma LoadedHasLg(stored: Stored)
    ensures LayoutOf(LoadSavedLayouts(stored), "lg").Some?
    ensures LayoutOf(LoadSavedLayouts(stored), "lg").value.Items?
  {
  }

  class Grid {
    /** `layouts` */
    var layouts: Layouts
    /** `collapsedWidgets` */
    var collapsed: map<string, bool>

    constructor(stored: Stored)
      ensures layouts == LoadSavedLayouts(stored) && collapsed == map[]
    {
      layouts := LoadSavedLayouts(stored);
      collapsed := map[];
    }

    /** `handleLayoutChange`: the grid's new layouts replace the state. */
    method LayoutChange(allLayouts: Layouts)
      modifies this
      ensures layouts == allLayouts && collapsed == old(collapsed)
    {
      layouts := allLayouts;
    }

    /** `resetLayout` */
    method ResetLayout()
      modifies this
      ensures layouts == DefaultLayouts && collapsed == old(collapsed)
    {
      layouts := DefaultLayouts;
    }

    /**
     * `handleWidgetCollapse(widgetId, isCollapsed)`: the collapse map records
     * the widget's new state, and the layouts are rebuilt breakpoint by
     * breakpoint.
     */
    method HandleWidgetCollapse(widgetId: string, isCollapsed: bool)
      modifies this
      ensures collapsed == old(collapsed)[widgetId := isCollapsed]
      ensures layouts == CollapseLayouts(DefaultLayouts, old(layouts), widgetId, isCollapsed)
    {
      collapsed := collapsed[widgetId := isCollapsed];
      var updatedLayouts := RebuildLayouts(DefaultLayouts, layouts, widgetId, isCollapsed);
      layouts := updatedLayouts;
    }
  }

  /** The `forEach` over the breakpoints that fills `updatedLayouts`. */
  method RebuildLayouts(defaults: Layouts, layouts: Layouts, widgetId: string, isCollapsed: bool)
    returns (updatedLayouts: Layouts)
    ensures updatedLayouts == CollapseLayouts(defaults, layouts, widgetId, isCollapsed)
  {
    updatedLayouts := [];
    var k := 0;
    while k < |layouts|
      invariant 0 <= k <= |layouts|
      invariant updatedLayouts == CollapseLayouts(defaults, layouts[..k], widgetId, isCollapsed)
    {
      assert layouts[..k + 1] == layouts[..k] + [layouts[k]];
      CollapseLayoutsSnoc(defaults, layouts[..k], layouts[k], widgetId, isCollapsed);
      var breakpoint := layouts[k].0;
      var piece: Layouts := [];
      match layouts[k].1 {
        case Items(its) =>
          piece := [(breakpoint, Items(CollapseItems(defaults, breakpoint, its, widgetId, isCollapsed)))];
        case NotArray =>
      }
      assert piece == CollapseEntry(defaults, layouts[k], widgetId, isCollapsed);
      updatedLayouts := updatedLayouts + piece;
      k := k + 1;
    }
    assert layouts[..k] == layouts;
  }
}
