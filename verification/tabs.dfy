/**
 * The browser's tab list as values: the tab record, the index lookups the
 * client performs on it, and the removal of one entry.
 */
module Tabs {
  import opened Wrappers

  /** Tab identity. Each tab gets a fresh one when it is created. */
  type TabId = nat

  /** A tab: its identity and the address it shows. Equality compares both. */
  datatype BrowserTab = BrowserTab(id: TabId, address: string)

  /** The address of the first tab and of every tab opened later. */
  const DefaultAddress: string := "https://www.google.com"

  /** The index of the first occurrence of `tab` (`tabs.firstIndex(of: tab)`). */
  function IndexOfTab(tabs: seq<BrowserTab>, tab: BrowserTab): (r: Option<nat>)
    ensures r.Some? ==> r.value < |tabs| && tabs[r.value] == tab
    ensures r.Some? ==> forall j :: 0 <= j < r.value ==> tabs[j] != tab
    ensures r.None? <==> tab !in tabs
  {
    if |tabs| == 0 then None
    else if tabs[0] == tab then Some(0)
    else match IndexOfTab(tabs[1..], tab)
      case None => None
      case Some(i) => Some(i + 1)
  }

  /** The index of the first tab carrying `id` (`tabs.firstIndex(where: { $0.id == id })`). */
  function IndexOfId(tabs: seq<BrowserTab>, id: TabId): (r: Option<nat>)
    ensures r.Some? ==> r.value < |tabs| && tabs[r.value].id == id
    ensures r.Some? ==> forall j :: 0 <= j < r.value ==> tabs[j].id != id
    ensures r.None? <==> forall j :: 0 <= j < |tabs| ==> tabs[j].id != id
  {
    if |tabs| == 0 then None
    else if tabs[0].id == id then Some(0)
    else match IndexOfId(tabs[1..], id)
      case None => None
      case Some(i) => Some(i + 1)
  }

  /**
   * The tab the client treats as active: the selected tab when there is a
   * selection, otherwise the first tab.
   */
  function ActiveIndex(tabs: seq<BrowserTab>, selection: Option<TabId>): (r: Option<nat>)
    ensures r.Some? ==> r.value < |tabs|
    ensures selection.Some? && r.Some? ==> tabs[r.value].id == selection.value
    ensures selection.Some? && r.None? ==> forall j :: 0 <= j < |tabs| ==> tabs[j].id != selection.value
    ensures selection.None? ==> (r.Some? <==> |tabs| > 0) && (r.Some? ==> r.value == 0)
  {
    match selection
    case Some(sel) => IndexOfId(tabs, sel)
    case None => if |tabs| > 0 then Some(0) else None
  }

  /** `s` with the element at `i` taken out (`remove(at:)`). */
  function RemoveAt<T>(s: seq<T>, i: nat): (r: seq<T>)
    requires i < |s|
    ensures |r| == |s| - 1
    ensures forall j :: 0 <= j < i ==> r[j] == s[j]
    ensures forall j :: i <= j < |r| ==> r[j] == s[j + 1]
  {
    s[..i] + s[i + 1..]
  }

  /** Removal takes out exactly the one element at `i`: nothing else is lost or added. */
  lemma RemoveAtMultiset<T>(s: seq<T>, i: nat)
    requires i < |s|
    ensures multiset(RemoveAt(s, i)) + multiset{s[i]} == multiset(s)
  {
    assert s == s[..i] + [s[i]] + s[i + 1..];
  }

  /**
   * After removing index `idx`, the tab that takes over the selection: the
   * one that moved into `idx`, or the last one when `idx` was the end.
   */
  function Neighbour(count: nat, idx: nat): (r: nat)
    requires count > 0
    ensures r < count
    ensures idx < count ==> r == idx
    ensures idx >= count ==> r == count - 1
  {
    if idx < count then idx else count - 1
  }

  /** Every id in the list is below `bound` and no id occurs twice. */
  ghost predicate IdsDistinctBelow(tabs: seq<BrowserTab>, bound: nat)
  {
    && (forall i :: 0 <= i < |tabs| ==> tabs[i].id < bound)
    && (forall i, j :: 0 <= i < j < |tabs| ==> tabs[i].id != tabs[j].id)
  }

  /**
   * The tab-list invariant: never empty, ids distinct and below the next
   * fresh id, and a selection always names a tab that exists.
   */
  ghost predicate TabsOk(tabs: seq<BrowserTab>, selection: Option<TabId>, nextId: nat)
  {
    && |tabs| > 0
    && IdsDistinctBelow(tabs, nextId)
    && (selection.Some? ==> IndexOfId(tabs, selection.value).Some?)
  }

  /** Under the invariant there is always an active tab. */
  lemma ActiveIndexDefined(tabs: seq<BrowserTab>, selection: Option<TabId>, nextId: nat)
    requires TabsOk(tabs, selection, nextId)
    ensures ActiveIndex(tabs, selection).Some?
  {
  }

  /** With distinct ids, the tab found by id is the only tab with that id. */
  lemma IndexOfIdUnique(tabs: seq<BrowserTab>, bound: nat, k: nat)
    requires IdsDistinctBelow(tabs, bound)
    requires k < |tabs|
    ensures IndexOfId(tabs, tabs[k].id) == Some(k)
  {
    var r := IndexOfId(tabs, tabs[k].id);
    assert r.Some?;
  }

  /** Removing a tab keeps the ids of the others distinct and bounded. */
  lemma RemoveAtKeepsIds(tabs: seq<BrowserTab>, bound: nat, i: nat)
    requires IdsDistinctBelow(tabs, bound)
    requires i < |tabs|
    ensures IdsDistinctBelow(RemoveAt(tabs, i), bound)
  {
    var r := RemoveAt(tabs, i);
    forall a, b | 0 <= a < b < |r| ensures r[a].id != r[b].id {
      var a' := if a < i then a else a + 1;
      var b' := if b < i then b else b + 1;
      assert r[a] == tabs[a'] && r[b] == tabs[b'] && a' < b';
    }
  }

  /** Changing a tab's address leaves every id, and so the invariant, as it was. */
  lemma SetAddressKeepsOk(tabs: seq<BrowserTab>, selection: Option<TabId>, nextId: nat,
                          i: nat, address: string)
    requires TabsOk(tabs, selection, nextId)
    requires i < |tabs|
    ensures TabsOk(tabs[i := tabs[i].(address := address)], selection, nextId)
  {
    var t := tabs[i := tabs[i].(address := address)];
    assert forall j :: 0 <= j < |t| ==> t[j].id == tabs[j].id;
  }

  /** What closing the tab at some index leaves: the tabs, the index of the selected one, the next fresh id. */
  datatype Closing = Closing(tabs: seq<BrowserTab>, selected: nat, nextId: nat)

  /**
   * Closing the tab at `idx`: the others keep their order; when none is
   * left, one fresh default tab takes its place. The selection moves to the
   * tab that slid into `idx`, or to the last tab when `idx` was the end.
   */
  function CloseAt(tabs: seq<BrowserTab>, idx: nat, nextId: nat): (c: Closing)
    requires idx < |tabs|
    ensures |c.tabs| > 0 && c.selected < |c.tabs|
    ensures |tabs| > 1 ==> c.tabs == RemoveAt(tabs, idx) && c.nextId == nextId
    ensures |tabs| > 1 ==> c.selected == (if idx < |tabs| - 1 then idx else |tabs| - 2)
    ensures |tabs| > 1 ==> c.tabs[c.selected] == (if idx < |tabs| - 1 then tabs[idx + 1] else tabs[idx - 1])
    ensures |tabs| == 1 ==>
              c.tabs == [BrowserTab(nextId, DefaultAddress)] && c.selected == 0 && c.nextId == nextId + 1
  {
    var rest := RemoveAt(tabs, idx);
    if |rest| == 0 then Closing([BrowserTab(nextId, DefaultAddress)], 0, nextId + 1)
    else Closing(rest, Neighbour(|rest|, idx), nextId)
  }

  /** Closing keeps the tab-list invariant, and the selected tab is the active one. */
  lemma CloseAtKeepsInvariant(tabs: seq<BrowserTab>, idx: nat, nextId: nat)
    requires idx < |tabs| && IdsDistinctBelow(tabs, nextId)
    ensures var c := CloseAt(tabs, idx, nextId);
            var sel := Some(c.tabs[c.selected].id);
            TabsOk(c.tabs, sel, c.nextId) && ActiveIndex(c.tabs, sel) == Some(c.selected)
  {
    var c := CloseAt(tabs, idx, nextId);
    if |tabs| > 1 {
      RemoveAtKeepsIds(tabs, nextId, idx);
    }
    IndexOfIdUnique(c.tabs, c.nextId, c.selected);
  }
}
