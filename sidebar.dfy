/** The navigation sidebar: a fixed menu tree, the list of expanded labels
    that `toggleExpand` replaces, and the rules that decide which rows
    `renderMenuItem` shows and what a click does. */
module Sidebar {

  /** A menu entry; `caption` holds the entry's `label` property (`label`
      is a reserved word in Dafny).  An entry declared without children is modelled with an empty
      children list: every rule tests only whether it has any. */
  datatype MenuItem = MenuItem(caption: string, href: string, active: bool, children: seq<MenuItem>)

  /** `item.children && item.children.length > 0`. */
  predicate HasChildren(item: MenuItem)
    ensures HasChildren(item) <==> item.children != []
  {
    |item.children| > 0
  }

  // ---------------------------------------------------------------------
  // The expanded list.

  /** `a` lists some of the elements of `b`, in the order `b` has them. */
  predicate IsSubsequence(a: seq<string>, b: seq<string>)
    decreases |b|
  {
    if a == [] then true
    else if b == [] then false
    else if a[0] == b[0] then IsSubsequence(a[1..], b[1..])
    else IsSubsequence(a, b[1..])
  }

  /** Skipping the head of the longer list keeps a subsequence one. */
  lemma {:induction false} SubsequenceOfTail(a: seq<string>, b: seq<string>)
    requires b != [] && IsSubsequence(a, b[1..])
    ensures IsSubsequence(a, b)
    decreases |b|, |a|
  {
    if a != [] && a[0] == b[0] {
      // a[1..] is a subsequence of b[1..] because a is one of b[1..].
      SubsequenceDropHead(a, b[1..]);
    }
  }

  /** Dropping the head of a subsequence keeps it a subsequence. */
  lemma {:induction false} SubsequenceDropHead(a: seq<string>, b: seq<string>)
    requires a != [] && IsSubsequence(a, b)
    ensures IsSubsequence(a[1..], b)
    decreases |b|, |a|
  {
    if a[0] == b[0] {
      if b[1..] != [] {
        SubsequenceOfTail(a[1..], b);
      } else {
        assert a[1..] == [];
      }
    } else {
      SubsequenceDropHead(a, b[1..]);
      SubsequenceOfTail(a[1..], b);
    }
  }

  /** `prev.filter((item) => item !== label)`. */
  function RemoveAll(s: seq<string>, x: string): (r: seq<string>)
    ensures x !in r
    ensures multiset(r) == multiset(s)[x := 0]
    ensures IsSubsequence(r, s)
  {
    if s == [] then []
    else if s[0] == x then
      var r := RemoveAll(s[1..], x);
      assert s == [s[0]] + s[1..];
      SubsequenceOfTail(r, s);
      r
    else
      var r := [s[0]] + RemoveAll(s[1..], x);
      assert s == [s[0]] + s[1..];
      assert r[1..] == RemoveAll(s[1..], x);
      r
  }

  /** `toggleExpand(label)` applied to the previous list. */
  function Toggle(expanded: seq<string>, caption: string): (r: seq<string>)
    ensures caption !in expanded ==> r == expanded + [caption]
    ensures caption in expanded ==>
              caption !in r && IsSubsequence(r, expanded) && multiset(r) == multiset(expanded)[caption := 0]
    ensures caption in r <==> caption !in expanded
  {
    if caption in expanded then RemoveAll(expanded, caption) else expanded + [caption]
  }

  /** No label is listed twice. */
  predicate Distinct(s: seq<string>) {
    forall i, j :: 0 <= i < j < |s| ==> s[i] != s[j]
  }

  /** A label listed at two positions is counted at least twice. */
  lemma TwoPositionsCountTwice(s: seq<string>, i: nat, j: nat)
    requires i < j < |s| && s[i] == s[j]
    ensures multiset(s)[s[i]] >= 2
  {
    assert s == s[..j] + s[j..];
    assert s[..j][i] == s[i];
    assert s[j..][0] == s[j];
    assert multiset(s) == multiset(s[..j]) + multiset(s[j..]);
  }

  /** A list is duplicate-free exactly when every count is at most one. */
  lemma {:induction false} DistinctByCounts(s: seq<string>)
    ensures Distinct(s) <==> forall y :: multiset(s)[y] <= 1
  {
    if !Distinct(s) {
      var i, j :| 0 <= i < j < |s| && s[i] == s[j];
      TwoPositionsCountTwice(s, i, j);
    } else if s != [] {
      var t := s[1..];
      assert s == [s[0]] + t;
      assert Distinct(t) by {
        forall i, j | 0 <= i < j < |t| ensures t[i] != t[j] {
          assert t[i] == s[i + 1] && t[j] == s[j + 1];
        }
      }
      assert s[0] !in t by {
        forall j | 0 <= j < |t| ensures t[j] != s[0] {
          assert t[j] == s[j + 1];
        }
      }
      DistinctByCounts(t);
      assert multiset(s) == multiset{s[0]} + multiset(t);
    }
  }

  /** Starting from a duplicate-free list, toggling keeps it duplicate-free. */
  lemma {:induction false} ToggleKeepsDistinct(expanded: seq<string>, caption: string)
    requires Distinct(expanded)
    ensures Distinct(Toggle(expanded, caption))
  {
    var r := Toggle(expanded, caption);
    DistinctByCounts(expanded);
    if caption !in expanded {
      assert multiset(r) == multiset(expanded) + multiset{caption};
    }
    DistinctByCounts(r);
  }

  /** Every list reached from the initial empty one by toggles is
      duplicate-free. */
  lemma {:induction false} TogglesFromEmptyDistinct(captions: seq<string>)
    ensures Distinct(ToggleAll([], captions))
    decreases |captions|
  {
    if captions != [] {
      TogglesFromEmptyDistinct(captions[..|captions| - 1]);
      ToggleKeepsDistinct(ToggleAll([], captions[..|captions| - 1]), captions[|captions| - 1]);
    }
  }

  /** The list after a sequence of toggles, in order. */
  function ToggleAll(expanded: seq<string>, captions: seq<string>): seq<string>
    decreases |captions|
  {
    if captions == [] then expanded
    else Toggle(ToggleAll(expanded, captions[..|captions| - 1]), captions[|captions| - 1])
  }

  /** Removing a label that is not listed changes nothing. */
  lemma {:induction false} RemoveAbsent(s: seq<string>, x: string)
    requires x !in s
    ensures RemoveAll(s, x) == s
  {
    if s != [] {
      RemoveAbsent(s[1..], x);
      assert s == [s[0]] + s[1..];
    }
  }

  /** Removing a label appended at the end removes just that. */
  lemma {:induction false} RemoveAppended(s: seq<string>, x: string)
    ensures RemoveAll(s + [x], x) == RemoveAll(s, x)
  {
    if s != [] {
      assert (s + [x])[1..] == s[1..] + [x];
      RemoveAppended(s[1..], x);
    }
  }

  /** Toggling a label that is not expanded twice restores the list. */
  lemma {:induction false} ToggleTwiceRestoresAbsent(expanded: seq<string>, caption: string)
    requires caption !in expanded
    ensures Toggle(Toggle(expanded, caption), caption) == expanded
  {
    RemoveAppended(expanded, caption);
    RemoveAbsent(expanded, caption);
  }

  /** Toggling any label twice leaves the same labels expanded, though an
      expanded label moves to the end. */
  lemma {:induction false} ToggleTwiceSameLabels(expanded: seq<string>, caption: string, y: string)
    ensures y in Toggle(Toggle(expanded, caption), caption) <==> y in expanded
  {
    if caption !in expanded {
      ToggleTwiceRestoresAbsent(expanded, caption);
    } else {
      var once := Toggle(expanded, caption);
      assert y != caption ==> (y in once <==> y in expanded) by {
        assert multiset(once)[y] == if y == caption then 0 else multiset(expanded)[y];
      }
    }
  }

  /** The order can change: with ["a", "b"] expanded, toggling "a" twice
      gives ["b", "a"]. */
  lemma ToggleTwiceReorders()
    ensures Toggle(Toggle(["a", "b"], "a"), "a") == ["b", "a"]
  {
    assert RemoveAll(["a", "b"], "a") == ["b"] by {
      assert ["a", "b"][1..] == ["b"];
      assert RemoveAll(["b"], "a") == ["b"] by { RemoveAbsent(["b"], "a"); }
    }
  }

  // ---------------------------------------------------------------------
  // Rendering.

  /** The chevron on an item's row. */
  datatype Chevron = NoChevron | Collapsed | Expanded

  /** One rendered menu row: the item's label, its nesting level (indented
      when positive), whether it is highlighted, whether the label text is
      visible, its chevron and whether it carries the hover tooltip. */
  datatype Row = Row(caption: string, level: nat, active: bool, showsLabel: bool, chevron: Chevron, tooltip: bool)

  /** The row of an item itself. */
  function OwnRow(item: MenuItem, level: nat, expanded: seq<string>, isOpen: bool): (r: Row)
    ensures r.caption == item.caption && r.level == level && r.active == item.active
    ensures r.showsLabel <==> isOpen
    ensures r.chevron != NoChevron <==> isOpen && HasChildren(item)
    ensures r.chevron == Expanded <==> isOpen && HasChildren(item) && item.caption in expanded
    ensures r.tooltip <==> !isOpen && HasChildren(item)
  {
    Row(item.caption, level, item.active, isOpen,
        if isOpen && HasChildren(item) then (if item.caption in expanded then Expanded else Collapsed) else NoChevron,
        !isOpen && HasChildren(item))
  }

  /** Whether `renderMenuItem` renders an item's children. */
  predicate ShowsChildren(item: MenuItem, expanded: seq<string>, isOpen: bool) {
    isOpen && HasChildren(item) && item.caption in expanded
  }

  /** `renderMenuItem(item, index, level)`, flattened into rows. */
  function RenderItem(item: MenuItem, level: nat, expanded: seq<string>, isOpen: bool): (rows: seq<Row>)
    ensures |rows| >= 1 && rows[0] == OwnRow(item, level, expanded, isOpen)
    ensures |rows| > 1 <==> ShowsChildren(item, expanded, isOpen)
    decreases item
  {
    [OwnRow(item, level, expanded, isOpen)] +
    (if ShowsChildren(item, expanded, isOpen) then RenderItems(item.children, level + 1, expanded, isOpen) else [])
  }

  /** `items.map((item, index) => renderMenuItem(item, index, level))`,
      flattened into rows. */
  function RenderItems(items: seq<MenuItem>, level: nat, expanded: seq<string>, isOpen: bool): (rows: seq<Row>)
    ensures |rows| >= |items|
    ensures items != [] ==> rows[0] == OwnRow(items[0], level, expanded, isOpen)
    decreases items
  {
    if items == [] then []
    else RenderItem(items[0], level, expanded, isOpen) + RenderItems(items[1..], level, expanded, isOpen)
  }

  /** A single item renders as that item's rows. */
  lemma RenderItemsSingleton(x: MenuItem, level: nat, expanded: seq<string>, isOpen: bool)
    ensures RenderItems([x], level, expanded, isOpen) == RenderItem(x, level, expanded, isOpen)
  {
    assert [x][1..] == [];
  }

  /** A list of items renders as the rows of its parts one after the other:
      each item contributes its own `RenderItem` rows, in order. */
  lemma {:induction false} RenderItemsAppend(a: seq<MenuItem>, b: seq<MenuItem>, level: nat, expanded: seq<string>, isOpen: bool)
    ensures RenderItems(a + b, level, expanded, isOpen) == RenderItems(a, level, expanded, isOpen) + RenderItems(b, level, expanded, isOpen)
    decreases a
  {
    if a == [] {
      assert a + b == b;
    } else {
      assert (a + b)[1..] == a[1..] + b;
      RenderItemsAppend(a[1..], b, level, expanded, isOpen);
      calc {
        RenderItems(a + b, level, expanded, isOpen);
        RenderItem(a[0], level, expanded, isOpen) + RenderItems(a[1..] + b, level, expanded, isOpen);
        RenderItem(a[0], level, expanded, isOpen) + (RenderItems(a[1..], level, expanded, isOpen) + RenderItems(b, level, expanded, isOpen));
        RenderItems(a, level, expanded, isOpen) + RenderItems(b, level, expanded, isOpen);
      }
    }
  }

  /** Every row sits at the given level or deeper. */
  predicate AtOrBelow(rows: seq<Row>, level: nat) {
    forall i :: 0 <= i < |rows| ==> rows[i].level >= level
  }

  /** Every row rendered from items at a level sits at that level or
      deeper: children are rendered below their parent. */
  lemma {:induction false} RowsAtOrBelow(items: seq<MenuItem>, level: nat, expanded: seq<string>, isOpen: bool)
    ensures AtOrBelow(RenderItems(items, level, expanded, isOpen), level)
    decreases items
  {
    if items != [] {
      var item := items[0];
      var own := [OwnRow(item, level, expanded, isOpen)];
      var nested := if ShowsChildren(item, expanded, isOpen) then RenderItems(item.children, level + 1, expanded, isOpen) else [];
      if ShowsChildren(item, expanded, isOpen) {
        RowsAtOrBelow(item.children, level + 1, expanded, isOpen);
      }
      assert AtOrBelow(nested, level);
      var tail := RenderItems(items[1..], level, expanded, isOpen);
      RowsAtOrBelow(items[1..], level, expanded, isOpen);
      assert RenderItems(items, level, expanded, isOpen) == own + nested + tail;
    }
  }

  /** An item whose children are shown is followed by exactly the rows of
      its children, rendered one level deeper, the first child's own row
      first. */
  lemma {:induction false} ChildrenOneLevelDeeper(item: MenuItem, level: nat, expanded: seq<string>, isOpen: bool)
    requires ShowsChildren(item, expanded, isOpen)
    ensures var rows := RenderItem(item, level, expanded, isOpen);
            rows[1..] == RenderItems(item.children, level + 1, expanded, isOpen) &&
            rows[1] == OwnRow(item.children[0], level + 1, expanded, isOpen) &&
            rows[1].level == level + 1 &&
            AtOrBelow(rows[1..], level + 1)
  {
    RowsAtOrBelow(item.children, level + 1, expanded, isOpen);
  }

  /** When no item's children are shown (the sidebar is closed, or nothing
      is expanded), exactly the given items are rendered, one row each, at
      the same level. */
  lemma {:induction false} OnlyTopLevelWhenCollapsed(items: seq<MenuItem>, level: nat, expanded: seq<string>, isOpen: bool)
    requires !isOpen || expanded == []
    ensures var rows := RenderItems(items, level, expanded, isOpen);
            |rows| == |items| &&
            forall i :: 0 <= i < |items| ==> rows[i] == OwnRow(items[i], level, expanded, isOpen)
    decreases items
  {
    if items != [] {
      OnlyTopLevelWhenCollapsed(items[1..], level, expanded, isOpen);
      var tail := RenderItems(items[1..], level, expanded, isOpen);
      assert RenderItem(items[0], level, expanded, isOpen) == [OwnRow(items[0], level, expanded, isOpen)];
      assert RenderItems(items, level, expanded, isOpen) == [OwnRow(items[0], level, expanded, isOpen)] + tail;
      assert forall i :: 1 <= i < |items| ==> items[i] == items[1..][i - 1];
    }
  }

  // ---------------------------------------------------------------------
  // Clicks.

  /** What a click leaves behind: the new expanded list, and whether the
      browser follows the item's link. */
  datatype ClickEffect = ClickEffect(expanded: seq<string>, followsLink: bool)

  /** A click on an item's row.  An item with children cancels the
      navigation and, only when the sidebar is open, toggles its label; any
      other item follows its link and leaves the list as it is. */
  function ClickItem(item: MenuItem, isOpen: bool, expanded: seq<string>): (r: ClickEffect)
    ensures !HasChildren(item) ==> r == ClickEffect(expanded, true)
    ensures HasChildren(item) ==> !r.followsLink
    ensures r.expanded != expanded ==> isOpen && HasChildren(item)
    ensures isOpen && HasChildren(item) ==> (item.caption in r.expanded <==> item.caption !in expanded)
    ensures isOpen && HasChildren(item) ==> r.expanded == Toggle(expanded, item.caption)
  {
    if HasChildren(item) then
      ClickEffect(if isOpen then Toggle(expanded, item.caption) else expanded, false)
    else ClickEffect(expanded, true)
  }

  /** A click on the chevron button, which only items with children show,
      and only while the sidebar is open; the click does not reach the
      row. */
  function ClickChevron(item: MenuItem, expanded: seq<string>): (r: seq<string>)
    ensures item.caption in r <==> item.caption !in expanded
    ensures r == Toggle(expanded, item.caption)
  {
    Toggle(expanded, item.caption)
  }

  /** Wherever the chevron is shown, clicking it has the same effect on the
      list as clicking the row. */
  lemma ChevronAgreesWithRow(item: MenuItem, level: nat, expanded: seq<string>, isOpen: bool)
    requires OwnRow(item, level, expanded, isOpen).chevron != NoChevron
    ensures ClickChevron(item, expanded) == ClickItem(item, isOpen, expanded).expanded
  {
  }

  // ---------------------------------------------------------------------
  // The menu.

  /** `menuItems`, with icons left out. */
  function MainMenu(): (m: seq<MenuItem>)
    ensures |m| == 7
    ensures forall i :: 0 <= i < |m| ==> (HasChildren(m[i]) <==> i == 0 || i == 4)
    ensures |m[0].children| == 3 && |m[4].children| == 2
  {
    [ MenuItem("事務所スタッフ管理", "#", false,
               [ MenuItem("スタッフ管理", "#", false, []),
                 MenuItem("シフト", "#", false, []),
                 MenuItem("権限管理", "#", false, []) ]),
      MenuItem("利用者管理", "#", false, []),
      MenuItem("児童管理", "#", false, []),
      MenuItem("利用枠管理", "#", false, []),
      MenuItem("通所予定管理", "#", false,
               [ MenuItem("予定管理", "#", false, []),
                 MenuItem("席割り当て管理", "#", false, []) ]),
      MenuItem("通所実績管理", "#", true, []),
      MenuItem("帳票出力", "#", false, []) ]
  }

  /** The number of active items among some items. */
  function CountActive(items: seq<MenuItem>): nat {
    if items == [] then 0 else (if items[0].active then 1 else 0) + CountActive(items[1..])
  }

  /** Exactly one top-level item of the menu is active: the
      attendance-record entry. */
  lemma MainMenuShape()
    ensures CountActive(MainMenu()) == 1
    ensures MainMenu()[5].active && MainMenu()[5].caption == "通所実績管理"
  {
    var m := MainMenu();
    assert CountActive(m[6..]) == 0;
    assert CountActive(m[5..]) == 1;
    assert m[4..][1..] == m[5..];
    assert CountActive(m[4..]) == 1;
    assert m[3..][1..] == m[4..];
    assert CountActive(m[3..]) == 1;
    assert m[2..][1..] == m[3..];
    assert CountActive(m[2..]) == 1;
    assert m[1..][1..] == m[2..];
    assert CountActive(m[1..]) == 1;
  }
}
