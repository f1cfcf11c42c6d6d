/** The bottom navigation bar: three fixed items, each highlighted when the
    current path is its own. */
module BottomBar {
  import opened Text

  datatype NavItem = NavItem(path: string, caption: string)

  const Items: seq<NavItem> := [NavItem("/", "Home"), NavItem("/explorar", "Explore"), NavItem("/certificados", "Shop")]

  const ActiveColour: string := "text-indigo-600"
  const IdleColour: string := "text-gray-500 group-hover:text-gray-700"

  /** The root item is active only on the root itself; any other item on
      every path that starts with its own, with no segment boundary. */
  predicate IsActive(pathname: string, path: string) {
    pathname == path || (path != "/" && StartsWith(pathname, path))
  }

  /** An item as drawn: whether it carries the active pill, and the colour
      of its icon and of its caption. */
  datatype RenderedItem = RenderedItem(item: NavItem, pill: bool, iconColour: string, captionColour: string)

  function Render(pathname: string, item: NavItem): (r: RenderedItem)
    ensures r.item == item && r.pill == IsActive(pathname, item.path)
    ensures r.iconColour == ActiveColour <==> IsActive(pathname, item.path)
    ensures r.captionColour == r.iconColour
  {
    var active := IsActive(pathname, item.path);
    var colour := if active then ActiveColour else IdleColour;
    RenderedItem(item, active, colour, colour)
  }

  function Bar(pathname: string): (rs: seq<RenderedItem>)
    ensures |rs| == |Items|
    ensures forall i :: 0 <= i < |Items| ==> rs[i] == Render(pathname, Items[i])
  {
    seq(|Items|, i requires 0 <= i < |Items| => Render(pathname, Items[i]))
  }

  /** The root item is active exactly on `/`. */
  lemma RootExactOnly(pathname: string)
    ensures Bar(pathname)[0].pill <==> pathname == "/"
  {
  }

  /** For any path at most one item is active. */
  lemma AtMostOneActive(pathname: string)
    ensures forall i, j :: 0 <= i < j < |Items| ==> !(Bar(pathname)[i].pill && Bar(pathname)[j].pill)
  {
    var e, c := "/explorar", "/certificados";
    if IsActive(pathname, e) && IsActive(pathname, c) {
      assert pathname[1] == e[1] && pathname[1] == c[1];
    }
    if IsActive(pathname, "/") {
      assert pathname == "/";
      assert !StartsWith(pathname, e) && !StartsWith(pathname, c);
    }
  }

  /** The match has no segment boundary: `/explorarX` lights the explore
      item. */
  lemma NoSegmentBoundary()
    ensures Bar("/explorarX")[1].pill
  {
    assert "/explorar" <= "/explorarX";
  }
}
