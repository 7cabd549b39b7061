/** The notifications page: the notifications grouped under their `group` heading (headings in order
    of first appearance, each group in list order), and the badge shown for each type. */
module NotificationPage {
  import opened Wrappers

  datatype PageNotification = PageNotification(id: int, kind: string, message: string, time: string,
                                               group: string)

  /** The notifications of group `g`, in list order. */
  function GroupOf(items: seq<PageNotification>, g: string): (r: seq<PageNotification>)
    ensures |r| <= |items|
    ensures forall x :: x in r <==> x in items && x.group == g
  {
    if items == [] then []
    else
      var front, last := items[..|items| - 1], items[|items| - 1];
      assert items == front + [last];
      GroupOf(front, g) + (if last.group == g then [last] else [])
  }

  lemma GroupOfAppend(items: seq<PageNotification>, x: PageNotification, g: string)
    ensures GroupOf(items + [x], g) == GroupOf(items, g) + (if x.group == g then [x] else [])
  {
    assert (items + [x])[..|items|] == items;
  }

  /** Some notification of the list is in group `g`. */
  predicate HasGroup(items: seq<PageNotification>, g: string) {
    exists i :: 0 <= i < |items| && items[i].group == g
  }

  lemma HasGroupAppend(items: seq<PageNotification>, x: PageNotification, g: string)
    ensures HasGroup(items + [x], g) <==> HasGroup(items, g) || x.group == g
  {
    var all := items + [x];
    if HasGroup(all, g) && x.group != g {
      var i :| 0 <= i < |all| && all[i].group == g;
      assert items[i] == all[i];
    }
    if HasGroup(items, g) {
      var i :| 0 <= i < |items| && items[i].group == g;
      assert all[i] == items[i];
    }
    assert all[|items|] == x;
  }

  /** No element occurs twice. */
  predicate Distinct(hs: seq<string>) {
    forall i, j :: 0 <= i < j < |hs| ==> hs[i] != hs[j]
  }

  /** The headings, in order of first appearance. */
  function Headings(items: seq<PageNotification>): seq<string> {
    if items == [] then []
    else
      var hs := Headings(items[..|items| - 1]);
      var g := items[|items| - 1].group;
      if g in hs then hs else hs + [g]
  }

  /** The headings are distinct, and they are exactly the groups that occur. */
  lemma {:induction false} HeadingsFacts(items: seq<PageNotification>)
    ensures Distinct(Headings(items))
    ensures forall g :: g in Headings(items) <==> HasGroup(items, g)
  {
    if items != [] {
      var front, last := items[..|items| - 1], items[|items| - 1];
      HeadingsFacts(front);
      var hs := Headings(front);
      assert Headings(items) == if last.group in hs then hs else hs + [last.group];
      if last.group !in hs {
        AppendFresh(hs, last.group);
      }
      assert items == front + [last];
      forall g ensures HasGroup(items, g) <==> HasGroup(front, g) || last.group == g {
        HasGroupAppend(front, last, g);
      }
    }
  }

  /** A sequence without repetitions keeps none when a new element is appended. */
  lemma AppendFresh(hs: seq<string>, g: string)
    requires Distinct(hs) && g !in hs
    ensures Distinct(hs + [g])
  {
    var r := hs + [g];
    forall i, j | 0 <= i < j < |r| ensures r[i] != r[j] {
      if j == |hs| {
        assert r[i] == hs[i];
      }
    }
  }

  /** One more notification adds its group to the headings unless it is already there. */
  lemma HeadingsAppend(items: seq<PageNotification>, x: PageNotification)
    ensures Headings(items + [x]) ==
      if x.group in Headings(items) then Headings(items) else Headings(items) + [x.group]
  {
    assert (items + [x])[..|items|] == items;
  }

  /** A group without a heading is empty. */
  lemma GroupOfAbsent(items: seq<PageNotification>, g: string)
    requires g !in Headings(items)
    ensures GroupOf(items, g) == []
  {
  }

  /** What one more notification does to the groups and the headings. */
  lemma AppendFacts(items: seq<PageNotification>, x: PageNotification)
    ensures forall g :: GroupOf(items + [x], g) == GroupOf(items, g) + (if x.group == g then [x] else [])
    ensures Headings(items + [x]) ==
      if x.group in Headings(items) then Headings(items) else Headings(items) + [x.group]
    ensures x.group !in Headings(items) ==> GroupOf(items, x.group) == []
  {
    forall g ensures GroupOf(items + [x], g) == GroupOf(items, g) + (if x.group == g then [x] else []) {
      GroupOfAppend(items, x, g);
    }
    HeadingsAppend(items, x);
    if x.group !in Headings(items) {
      GroupOfAbsent(items, x.group);
    }
  }

  /** `groups` and `headings` are the grouping of `items`: one key per heading, each holding the
      notifications of its group. */
  ghost predicate Grouped(groups: map<string, seq<PageNotification>>, headings: seq<string>,
                          items: seq<PageNotification>) {
    && headings == Headings(items)
    && (forall g :: g in groups <==> g in headings)
    && (forall g :: g in groups ==> groups[g] == GroupOf(items, g))
  }

  /** Each list of the map holds its group, once more with `x` appended to its own group's list. */
  lemma ListsStep(groups: map<string, seq<PageNotification>>, m: map<string, seq<PageNotification>>,
                  items: seq<PageNotification>, x: PageNotification)
    requires forall g :: g in groups ==> groups[g] == GroupOf(items, g)
    requires x.group in groups ==> GroupOf(items, x.group) == groups[x.group]
    requires x.group !in groups ==> GroupOf(items, x.group) == []
    requires m.Keys == groups.Keys + {x.group}
    requires m[x.group] == (if x.group in groups then groups[x.group] else []) + [x]
    requires forall g :: g in groups && g != x.group ==> m[g] == groups[g]
    ensures forall g :: g in m ==> m[g] == GroupOf(items + [x], g)
  {
    forall g | g in m ensures m[g] == GroupOf(items + [x], g) {
      GroupOfAppend(items, x, g);
    }
  }

  /** A notification of a group that already has a list joins the end of that list. */
  lemma GroupedStepKnown(groups: map<string, seq<PageNotification>>, headings: seq<string>,
                         items: seq<PageNotification>, x: PageNotification)
    requires Grouped(groups, headings, items) && x.group in groups
    ensures Grouped(groups[x.group := groups[x.group] + [x]], headings, items + [x])
  {
    var m := groups[x.group := groups[x.group] + [x]];
    HeadingsAppend(items, x);
    assert Headings(items + [x]) == headings;
    assert m.Keys == groups.Keys;
    ListsStep(groups, m, items, x);
  }

  /** A group without a list has no heading yet and no notification so far; it becomes the last
      heading. */
  lemma NewHeading(groups: map<string, seq<PageNotification>>, headings: seq<string>,
                   items: seq<PageNotification>, x: PageNotification)
    requires Grouped(groups, headings, items) && x.group !in groups
    ensures Headings(items + [x]) == headings + [x.group]
    ensures GroupOf(items, x.group) == []
  {
    HeadingsAppend(items, x);
    GroupOfAbsent(items, x.group);
  }

  /** A notification of a new group starts that group's list and its heading. */
  lemma GroupedStepNew(groups: map<string, seq<PageNotification>>, headings: seq<string>,
                       items: seq<PageNotification>, x: PageNotification)
    requires Grouped(groups, headings, items) && x.group !in groups
    ensures Grouped(groups[x.group := [x]], headings + [x.group], items + [x])
  {
    NewHeading(groups, headings, items, x);
    ListsStep(groups, groups[x.group := [x]], items, x);
  }

  /** The grouping as the page builds it: one pass over the list, appending each notification to
      its group's list (creating the list the first time the group is seen). `headings` records
      the order in which the groups were created. */
  method GroupNotifications(items: seq<PageNotification>)
    returns (groups: map<string, seq<PageNotification>>, headings: seq<string>)
    ensures headings == Headings(items)
    ensures forall g :: g in groups <==> g in headings
    ensures forall g :: g in groups ==> groups[g] == GroupOf(items, g)
  {
    groups, headings := map[], [];
    var i := 0;
    while i < |items|
      invariant 0 <= i <= |items|
      invariant Grouped(groups, headings, items[..i])
    {
      var x := items[i];
      assert items[..i + 1] == items[..i] + [x];
      if x.group in groups {
        GroupedStepKnown(groups, headings, items[..i], x);
        groups := groups[x.group := groups[x.group] + [x]];
      } else {
        GroupedStepNew(groups, headings, items[..i], x);
        groups := groups[x.group := [x]];
        headings := headings + [x.group];
      }
      i := i + 1;
    }
    assert items[..i] == items;
  }

  /** The sizes of the groups named in `hs`, added up. */
  function SizeSum(items: seq<PageNotification>, hs: seq<string>): nat {
    if hs == [] then 0 else |GroupOf(items, hs[0])| + SizeSum(items, hs[1..])
  }

  lemma {:induction false} SizeSumAppendHeading(items: seq<PageNotification>, hs: seq<string>, h: string)
    ensures SizeSum(items, hs + [h]) == SizeSum(items, hs) + |GroupOf(items, h)|
  {
    if hs != [] {
      assert (hs + [h])[1..] == hs[1..] + [h];
      SizeSumAppendHeading(items, hs[1..], h);
    }
  }

  lemma {:induction false} SizeSumAppendItem(items: seq<PageNotification>, x: PageNotification, hs: seq<string>)
    requires Distinct(hs)
    ensures SizeSum(items + [x], hs) == SizeSum(items, hs) + (if x.group in hs then 1 else 0)
  {
    if hs != [] {
      GroupOfAppend(items, x, hs[0]);
      SizeSumAppendItem(items, x, hs[1..]);
      if x.group == hs[0] {
        assert x.group !in hs[1..];
      }
    }
  }

  /** The groups together hold every notification once: their sizes add up to the list's length. */
  lemma {:induction false} GroupSizesSum(items: seq<PageNotification>)
    ensures SizeSum(items, Headings(items)) == |items|
  {
    if items != [] {
      var front := items[..|items| - 1];
      var x := items[|items| - 1];
      assert items == front + [x];
      var hs := Headings(front);
      HeadingsFacts(front);
      GroupSizesSum(front);
      SizeSumAppendItem(front, x, hs);
      AppendFacts(front, x);
      if x.group !in hs {
        SizeSumAppendHeading(items, hs, x.group);
      }
    }
  }

  /** Each notification is in the group its `group` names and in no other. */
  lemma GroupedOnce(items: seq<PageNotification>, x: PageNotification, g: string)
    requires x in items
    ensures x in GroupOf(items, g) <==> g == x.group
    ensures x.group in Headings(items)
  {
    var i :| 0 <= i < |items| && items[i] == x;
    assert HasGroup(items, x.group);
  }

  /** `typeBadge[n.type]`; other types show no badge. */
  function TypeBadge(kind: string): (r: Option<string>)
    ensures kind == "like" <==> r == Some("Like")
    ensures kind == "follow" <==> r == Some("New Follower")
    ensures kind == "comment" <==> r == Some("Comment")
    ensures r.None? <==> kind != "like" && kind != "follow" && kind != "comment"
  {
    if kind == "like" then Some("Like")
    else if kind == "follow" then Some("New Follower")
    else if kind == "comment" then Some("Comment")
    else None
  }
}
