/** `sortRoutes`: the order in which routes are displayed and the width of
    the route column. Labelled routes come first in ascending order; the
    unlabeled route, the empty string, comes last. */
module RouteOrder {
  import opened Lex
  import opened StringSort

  /** How the unlabeled route is displayed. */
  const DefaultRoute: string := "[UNKNOWN]"

  /** Its width in bytes, the narrowest the route column can be. */
  const DefaultRouteWidth: nat := ByteLen(DefaultRoute)

  lemma DefaultRouteWidthIsNine()
    ensures DefaultRouteWidth == |DefaultRoute| == 9
  {
  }

  /** The display order as a relation: `x` is shown before `y`. The empty
      label is never compared lexicographically; it simply follows every
      labelled route. */
  predicate Before(x: string, y: string) {
    x != "" && (y == "" || Less(x, y))
  }

  predicate InDisplayOrder(s: seq<string>) {
    forall i, j :: 0 <= i < j < |s| ==> Before(s[i], s[j])
  }

  /** `w` is the route column width for `keys`: the longest labelled key in
      bytes, but never narrower than the sentinel label. */
  predicate IsRouteWidth(keys: set<string>, w: nat) {
    && w >= DefaultRouteWidth
    && (forall k :: k in keys && k != "" ==> ByteLen(k) <= w)
    && (w == DefaultRouteWidth || exists k :: k in keys && k != "" && ByteLen(k) == w)
  }

  /** `sortRoutes`: the keys in display order and the route column width. */
  method SortRoutes<V>(stats: map<string, V>) returns (routes: seq<string>, width: nat)
    ensures forall k :: k in routes <==> k in stats
    ensures |routes| == |stats|
    ensures InDisplayOrder(routes)
    ensures "" in stats <==> |routes| > 0 && routes[|routes| - 1] == ""
    ensures IsRouteWidth(stats.Keys, width)
  {
    var others, hasDefaultRoute;
    others, hasDefaultRoute, width := PartitionKeys(stats.Keys);
    LongestKeyIsRouteWidth(others, stats.Keys);
    routes := AppendDefaultRoute(others, hasDefaultRoute);
  }

  /** The width the loop of `sortRoutes` has reached after collecting the
      labelled keys `others` in that order, starting from `floor`: each key
      longer than the running width replaces it. */
  function LongestKey(others: seq<string>, floor: nat): (w: nat)
    ensures w >= floor
    ensures forall k :: k in others ==> ByteLen(k) <= w
    ensures w == floor || exists i :: 0 <= i < |others| && ByteLen(others[i]) == w
    decreases |others|
  {
    if |others| == 0 then floor
    else
      var w := LongestKey(others[..|others| - 1], floor);
      var last := others[|others| - 1];
      assert others == others[..|others| - 1] + [last];
      assert forall i :: 0 <= i < |others| - 1 ==> others[..|others| - 1][i] == others[i];
      if ByteLen(last) > w then ByteLen(last) else w
  }

  /** The running width over the collected labelled keys is the route
      column width of the whole key set. */
  lemma LongestKeyIsRouteWidth(others: seq<string>, keys: set<string>)
    requires forall k :: k in others <==> k in keys && k != ""
    ensures IsRouteWidth(keys, LongestKey(others, DefaultRouteWidth))
  {
  }

  /** The loop of `sortRoutes`: walks the keys in whatever order the map
      yields them, setting the unlabeled route aside, collecting the others
      and tracking the longest. */
  method PartitionKeys(keys: set<string>) returns (others: seq<string>, hasDefaultRoute: bool, width: nat)
    ensures forall k :: k in others <==> k in keys && k != ""
    ensures Distinct(others)
    ensures hasDefaultRoute <==> "" in keys
    ensures |others| + (if hasDefaultRoute then 1 else 0) == |keys|
    ensures width == LongestKey(others, DefaultRouteWidth)
  {
    others := [];
    width := DefaultRouteWidth;
    hasDefaultRoute := false;
    var remaining := keys;
    while remaining != {}
      invariant remaining <= keys
      invariant forall k :: k in others <==> k in keys && k !in remaining && k != ""
      invariant Distinct(others)
      invariant hasDefaultRoute <==> "" in keys && "" !in remaining
      invariant |others| + (if hasDefaultRoute then 1 else 0) + |remaining| == |keys|
      invariant width == LongestKey(others, DefaultRouteWidth)
      decreases |remaining|
    {
      var key :| key in remaining;
      remaining := remaining - {key};
      if key == "" {
        hasDefaultRoute := true;
      } else {
        DistinctAppend(others, key);
        assert (others + [key])[..|others|] == others;
        others := others + [key];
        if ByteLen(key) > width {
          width := ByteLen(key);
        }
      }
    }
  }

  /** The last step of `SortRoutes`: the sorted labelled routes, followed by
      the unlabeled route when the map had one. */
  function AppendDefaultRoute(others: seq<string>, hasDefaultRoute: bool): (routes: seq<string>)
    requires Distinct(others) && "" !in others
    ensures forall k :: k in routes <==> k in others || (hasDefaultRoute && k == "")
    ensures |routes| == |others| + (if hasDefaultRoute then 1 else 0)
    ensures InDisplayOrder(routes)
    ensures hasDefaultRoute <==> |routes| > 0 && routes[|routes| - 1] == ""
  {
    var sorted := SortStrings(others);
    SortDistinct(others);
    assert forall k :: k in sorted <==> k in multiset(sorted);
    assert forall k :: k in others <==> k in multiset(others);
    if hasDefaultRoute then sorted + [""] else sorted
  }

  lemma BeforeIrreflexive(x: string)
    ensures !Before(x, x)
  {
    LessIrreflexive(x);
  }

  lemma BeforeAsymmetric(x: string, y: string)
    ensures !(Before(x, y) && Before(y, x))
  {
    LessAsymmetric(x, y);
  }

  lemma BeforeTransitive(x: string, y: string, z: string)
    requires Before(x, y) && Before(y, z)
    ensures Before(x, z)
  {
    if z != "" {
      LessTransitive(x, y, z);
    }
  }

  /** Any two different labels are ordered one way or the other. */
  lemma BeforeTotal(x: string, y: string)
    ensures x == y || Before(x, y) || Before(y, x)
  {
    LessTrichotomy(x, y);
  }

  lemma DisplayOrderTail(s: seq<string>)
    requires InDisplayOrder(s) && |s| > 0
    ensures InDisplayOrder(s[1..])
    ensures forall x :: x in s[1..] ==> Before(s[0], x)
    ensures forall x :: x in s <==> x == s[0] || x in s[1..]
  {
  }

  /** The display order of a set of routes is unique: whatever order the
      map's keys are visited in, `SortRoutes` produces the same sequence. */
  lemma {:induction false} DisplayOrderUnique(a: seq<string>, b: seq<string>)
    requires InDisplayOrder(a) && InDisplayOrder(b)
    requires forall x :: x in a <==> x in b
    ensures a == b
    decreases |a|
  {
    if |a| > 0 {
      assert a[0] in b;
    }
    if |b| > 0 {
      assert b[0] in a;
    }
    if |a| > 0 && |b| > 0 {
      DisplayOrderTail(a);
      DisplayOrderTail(b);
      BeforeAsymmetric(a[0], b[0]);
      assert a[0] == b[0];
      BeforeIrreflexive(a[0]);
      DisplayOrderUnique(a[1..], b[1..]);
      assert a == [a[0]] + a[1..];
      assert b == [b[0]] + b[1..];
    }
  }

  /** The route column width is determined by the keys. */
  lemma RouteWidthUnique(keys: set<string>, w1: nat, w2: nat)
    requires IsRouteWidth(keys, w1) && IsRouteWidth(keys, w2)
    ensures w1 == w2
  {
  }

  /** The worked example of a table with the labelled route "/api/vote" and
      the unlabeled route: the labelled one is shown first. */
  lemma ExampleOrder(routes: seq<string>)
    requires InDisplayOrder(routes)
    requires forall k :: k in routes <==> k in {"", "/api/vote"}
    ensures routes == ["/api/vote", ""]
  {
    DisplayOrderUnique(routes, ["/api/vote", ""]);
  }
}
