/** The searches of the menu hook: which items of a menu tree belong to the current page. */
module Menu {
  import opened Wrappers

  /** A menu item without or with a list of children, which may be empty; an absent path is `None`. */
  datatype Item =
    | Leaf(title: string, path: Option<string>)
    | Branch(title: string, path: Option<string>, children: seq<Item>)

  function Children(item: Item): seq<Item> {
    if item.Branch? then item.children else []
  }

  // ---------- the searches ----------

  predicate IsActive(path: Option<string>, here: string) {
    if path == Some("/") then here == "/" else path.Some? && path.value != "" && path.value <= here
  }

  predicate Hit(item: Item, here: string) {
    item.path.Some? && item.path.value != "" && IsActive(item.path, here)
  }

  predicate HasActive(items: seq<Item>, here: string) {
    items != [] &&
    (|| Hit(items[0], here)
     || (items[0].Branch? && HasActive(items[0].children, here))
     || HasActive(items[1..], here))
  }

  predicate IsItemActive(item: Item, here: string) {
    Hit(item, here) || (item.Branch? && HasActive(item.children, here))
  }

  function CurrentItem(items: seq<Item>, here: string): Option<Item> {
    if items == [] then None
    else
      var item := items[0];
      var inside := if item.Branch? && item.children != [] then CurrentItem(item.children, here) else None;
      if Hit(item, here) then (if inside.Some? then inside else Some(item))
      else if inside.Some? then inside
      else CurrentItem(items[1..], here)
  }

  function FindBreadcrumb(nodes: seq<Item>, breadcrumb: seq<Item>, here: string): seq<Item>
    decreases nodes
  {
    if nodes == [] then breadcrumb
    else
      var item := nodes[0];
      var current := breadcrumb + [item];
      if Hit(item, here) then current
      else if item.Branch? && item.children != [] then
        var deeper := FindBreadcrumb(item.children, current, here);
        if |deeper| > |current| then deeper else FindBreadcrumb(nodes[1..], breadcrumb, here)
      else FindBreadcrumb(nodes[1..], breadcrumb, here)
  }

  function Breadcrumb(items: seq<Item>, here: string): seq<Item> {
    var b := FindBreadcrumb(items, [], here);
    if |b| > 0 then b else []
  }

  // ---------- the reference: all paths in preorder ----------

  /** The paths from the root to every node, in preorder, each after `prefix`. */
  function AllPaths(items: seq<Item>, prefix: seq<Item>): seq<seq<Item>>
    decreases items
  {
    if items == [] then []
    else
      var path := prefix + [items[0]];
      [path]
      + (if items[0].Branch? then AllPaths(items[0].children, path) else [])
      + AllPaths(items[1..], prefix)
  }

  predicate EndsActive(path: seq<Item>, here: string) {
    path != [] && Hit(path[|path| - 1], here)
  }

  /** The first path whose last node is active. */
  function FirstActive(paths: seq<seq<Item>>, here: string): Option<seq<Item>> {
    if paths == [] then None
    else if EndsActive(paths[0], here) then Some(paths[0])
    else FirstActive(paths[1..], here)
  }

  lemma {:induction false} FirstActiveIsFirst(paths: seq<seq<Item>>, here: string)
    ensures var r := FirstActive(paths, here);
            && (r.None? ==> forall k :: 0 <= k < |paths| ==> !EndsActive(paths[k], here))
            && (r.Some? ==> exists k :: 0 <= k < |paths| && paths[k] == r.value && EndsActive(paths[k], here)
                                        && forall j :: 0 <= j < k ==> !EndsActive(paths[j], here))
  {
    if paths != [] && !EndsActive(paths[0], here) {
      FirstActiveIsFirst(paths[1..], here);
      var r := FirstActive(paths, here);
      if r.Some? {
        var k :| 0 <= k < |paths[1..]| && paths[1..][k] == r.value && EndsActive(paths[1..][k], here)
                 && forall j :: 0 <= j < k ==> !EndsActive(paths[1..][j], here);
        assert paths[k + 1] == r.value;
        assert forall j :: 1 <= j < k + 1 ==> paths[j] == paths[1..][j - 1];
      } else {
        assert forall k :: 1 <= k < |paths| ==> paths[k] == paths[1..][k - 1];
      }
    }
  }

  lemma {:induction false} FirstActiveOfSum(p: seq<seq<Item>>, q: seq<seq<Item>>, here: string)
    ensures FirstActive(p + q, here) ==
            if FirstActive(p, here).Some? then FirstActive(p, here) else FirstActive(q, here)
  {
    if p == [] {
      assert p + q == q;
    } else {
      assert (p + q)[1..] == p[1..] + q;
      FirstActiveOfSum(p[1..], q, here);
    }
  }

  /** A chain of nodes, each a child of the one before, the first among `items`. */
  predicate IsChain(items: seq<Item>, chain: seq<Item>)
    decreases |chain|
  {
    chain != [] ==> chain[0] in items && IsChain(Children(chain[0]), chain[1..])
  }

  lemma {:induction false} PathsAreChains(items: seq<Item>, prefix: seq<Item>, path: seq<Item>)
    requires path in AllPaths(items, prefix)
    ensures |path| > |prefix| && path[..|prefix|] == prefix && IsChain(items, path[|prefix|..])
    decreases items
  {
    var head := prefix + [items[0]];
    if path == head {
      assert path[|prefix|..] == [items[0]];
    } else if items[0].Branch? && path in AllPaths(items[0].children, head) {
      PathsAreChains(items[0].children, head, path);
      assert path[..|prefix|] == path[..|head|][..|prefix|] == prefix;
      assert path[|prefix|] == path[..|head|][|prefix|] == items[0];
      assert path[|prefix|..][1..] == path[|head|..];
    } else {
      PathsAreChains(items[1..], prefix, path);
      assert path[|prefix|..][0] in items[1..];
    }
  }

  // ---------- the searches agree ----------

  /** The breadcrumb search finds the first active node in preorder, with the path to it. */
  lemma {:induction false} BreadcrumbIsFirst(items: seq<Item>, prefix: seq<Item>, here: string)
    ensures var r := FirstActive(AllPaths(items, prefix), here);
            FindBreadcrumb(items, prefix, here) == if r.Some? then r.value else prefix
    decreases items
  {
    if items != [] {
      var item := items[0];
      var path := prefix + [item];
      var inside := if item.Branch? then AllPaths(item.children, path) else [];
      var rest := AllPaths(items[1..], prefix);
      BreadcrumbIsFirst(items[1..], prefix, here);
      FirstActiveOfSum([path] + inside, rest, here);
      FirstActiveOfSum([path], inside, here);
      if item.Branch? {
        BreadcrumbIsFirst(item.children, path, here);
        var r := FirstActive(inside, here);
        if r.Some? {
          FirstActiveIsFirst(inside, here);
          assert r.value in inside;
          PathsAreChains(item.children, path, r.value);
        }
      }
    }
  }

  lemma {:induction false} HasActiveIff(items: seq<Item>, prefix: seq<Item>, here: string)
    ensures HasActive(items, here) <==> FirstActive(AllPaths(items, prefix), here).Some?
    ensures HasActive(items, here) <==> CurrentItem(items, here).Some?
    decreases items
  {
    if items != [] {
      var item := items[0];
      var path := prefix + [item];
      var inside := if item.Branch? then AllPaths(item.children, path) else [];
      var rest := AllPaths(items[1..], prefix);
      HasActiveIff(items[1..], prefix, here);
      FirstActiveOfSum([path] + inside, rest, here);
      FirstActiveOfSum([path], inside, here);
      if item.Branch? {
        HasActiveIff(item.children, path, here);
      }
    }
  }

  /** On every menu the three searches agree whether anything is active. */
  lemma SearchesAgree(items: seq<Item>, here: string)
    ensures HasActive(items, here) <==> CurrentItem(items, here).Some?
    ensures HasActive(items, here) <==> Breadcrumb(items, here) != []
  {
    HasActiveIff(items, [], here);
    BreadcrumbIsFirst(items, [], here);
    var r := FirstActive(AllPaths(items, []), here);
    if r.Some? {
      FirstActiveIsFirst(AllPaths(items, []), here);
      assert r.value in AllPaths(items, []);
      PathsAreChains(items, [], r.value);
    }
  }

  /** A list has something active exactly if one of its items is active. */
  lemma {:induction false} ActiveItemIff(items: seq<Item>, here: string)
    ensures HasActive(items, here) <==> exists i :: 0 <= i < |items| && IsItemActive(items[i], here)
    decreases |items|
  {
    if items != [] {
      ActiveItemIff(items[1..], here);
      assert forall i :: 1 <= i < |items| ==> items[i] == items[1..][i - 1];
      if HasActive(items[1..], here) {
        var i :| 0 <= i < |items[1..]| && IsItemActive(items[1..][i], here);
        assert IsItemActive(items[i + 1], here);
      }
    }
  }

  /** The breadcrumb leads, from parent to child, to the first active node in preorder: its nodes
      form a chain, its last is active, and every path before it in preorder ends at a node that
      is not. */
  lemma BreadcrumbLeadsToFirstActive(items: seq<Item>, here: string)
    requires HasActive(items, here)
    ensures var b := Breadcrumb(items, here);
            && IsChain(items, b)
            && exists k :: 0 <= k < |AllPaths(items, [])| && AllPaths(items, [])[k] == b && EndsActive(b, here)
                           && forall j :: 0 <= j < k ==> !EndsActive(AllPaths(items, [])[j], here)
  {
    SearchesAgree(items, here);
    BreadcrumbIsFirst(items, [], here);
    FirstActiveIsFirst(AllPaths(items, []), here);
    var b := Breadcrumb(items, here);
    assert b in AllPaths(items, []);
    PathsAreChains(items, [], b);
    assert b[0..] == b;
  }

  /** The last node of the breadcrumb is where the search for the current item goes on: it returns
      that node, or the current item among its children. */
  lemma {:induction false} CurrentIsBelowBreadcrumb(items: seq<Item>, prefix: seq<Item>, here: string)
    requires HasActive(items, here)
    ensures var b := FindBreadcrumb(items, prefix, here);
            && |b| > |prefix|
            && var last := b[|b| - 1];
               CurrentItem(items, here) ==
               if HasActive(Children(last), here) then CurrentItem(Children(last), here) else Some(last)
    decreases items
  {
    var item := items[0];
    var path := prefix + [item];
    if item.Branch? {
      HasActiveIff(item.children, path, here);
    }
    if !Hit(item, here) {
      if HasActive(Children(item), here) {
        CurrentIsBelowBreadcrumb(item.children, path, here);
      } else {
        if item.Branch? {
          BreadcrumbIsFirst(item.children, path, here);
        }
        CurrentIsBelowBreadcrumb(items[1..], prefix, here);
      }
    }
  }

  /** The current item lies in the subtree of the last node of the breadcrumb: one of the paths from
      the root starts with the breadcrumb and ends at it. */
  lemma {:induction false} CurrentIsInSubtree(items: seq<Item>, prefix: seq<Item>, here: string)
    requires HasActive(items, here)
    ensures var b := FindBreadcrumb(items, prefix, here);
            exists path :: path in AllPaths(items, prefix) && |path| > |prefix| && b <= path
                           && CurrentItem(items, here) == Some(path[|path| - 1])
    decreases items
  {
    var item := items[0];
    var head := prefix + [item];
    if HasActive(Children(item), here) {
      CurrentIsInSubtree(item.children, head, here);
      var path :| path in AllPaths(item.children, head) && |path| > |head|
                  && FindBreadcrumb(item.children, head, here) <= path
                  && CurrentItem(item.children, here) == Some(path[|path| - 1]);
      PathsAreChains(item.children, head, path);
      CurrentIsBelowBreadcrumb(item.children, head, here);
      assert path in AllPaths(items, prefix);
      if Hit(item, here) {
        assert head <= path;
      }
    } else if Hit(item, here) {
      if item.Branch? {
        HasActiveIff(item.children, head, here);
      }
      assert head in AllPaths(items, prefix);
    } else {
      if item.Branch? {
        HasActiveIff(item.children, head, here);
        BreadcrumbIsFirst(item.children, head, here);
      }
      CurrentIsInSubtree(items[1..], prefix, here);
      var path :| path in AllPaths(items[1..], prefix) && |path| > |prefix|
                  && FindBreadcrumb(items[1..], prefix, here) <= path
                  && CurrentItem(items[1..], here) == Some(path[|path| - 1]);
      assert path in AllPaths(items, prefix);
    }
  }

  // ---------- getChildren ----------

  /** The test getChildren writes out itself. */
  predicate HitAtLevel(item: Item, here: string) {
    && item.path.Some? && item.path.value != ""
    && (item.path.value == here || (item.path.value != "/" && item.path.value <= here))
  }

  predicate HasActiveAtLevel(items: seq<Item>, here: string) {
    items != [] &&
    (|| HitAtLevel(items[0], here)
     || (items[0].Branch? && HasActiveAtLevel(items[0].children, here))
     || HasActiveAtLevel(items[1..], here))
  }

  /** `items` is the list the loop runs over, `rest` what it still has before it. */
  function FindChildren(items: seq<Item>, rest: seq<Item>, target: int, level: int, here: string): Option<seq<Item>>
    decreases rest
  {
    if rest == [] then None
    else
      var item := rest[0];
      if item.Branch? then
        if target == level && HasActiveAtLevel(item.children, here) then Some(item.children)
        else
          var below := FindChildren(item.children, item.children, target, level + 1, here);
          if below.Some? then below else FindChildren(items, rest[1..], target, level, here)
      else if target == level && HitAtLevel(item, here) then Some(items)
      else FindChildren(items, rest[1..], target, level, here)
  }

  function GetChildren(items: seq<Item>, level: int, here: string): Option<seq<Item>> {
    FindChildren(items, items, level, 0, here)
  }

  lemma {:induction false} ActiveTestsAgree(items: seq<Item>, here: string)
    ensures HasActiveAtLevel(items, here) <==> HasActive(items, here)
    decreases items
  {
    if items != [] {
      ActiveTestsAgree(items[1..], here);
      if items[0].Branch? {
        ActiveTestsAgree(items[0].children, here);
      }
    }
  }

  /** Below the target level the search finds nothing. */
  lemma {:induction false} NothingBelowTarget(items: seq<Item>, rest: seq<Item>, target: int, level: int, here: string)
    requires level > target
    ensures FindChildren(items, rest, target, level, here) == None
    decreases rest
  {
    if rest != [] {
      NothingBelowTarget(items, rest[1..], target, level, here);
      if rest[0].Branch? {
        NothingBelowTarget(rest[0].children, rest[0].children, target, level + 1, here);
      }
    }
  }

  /** A node together with the list it stands in. */
  datatype Place = Place(siblings: seq<Item>, item: Item)

  /** The nodes `depth` levels below a list, from left to right. */
  function NodesAt(siblings: seq<Item>, rest: seq<Item>, depth: nat): seq<Place>
    decreases rest
  {
    if rest == [] then []
    else
      (if depth == 0 then [Place(siblings, rest[0])]
       else if rest[0].Branch? then NodesAt(rest[0].children, rest[0].children, depth - 1)
       else [])
      + NodesAt(siblings, rest[1..], depth)
  }

  /** What a node offers: its children, if one of them is active below, or without children the list
      it stands in, if it is active itself. */
  function Offer(p: Place, here: string): Option<seq<Item>> {
    if p.item.Branch? then (if HasActive(p.item.children, here) then Some(p.item.children) else None)
    else if Hit(p.item, here) then Some(p.siblings)
    else None
  }

  function FirstOffer(ps: seq<Place>, here: string): Option<seq<Item>> {
    if ps == [] then None
    else if Offer(ps[0], here).Some? then Offer(ps[0], here)
    else FirstOffer(ps[1..], here)
  }

  lemma {:induction false} FirstOfferOfSum(p: seq<Place>, q: seq<Place>, here: string)
    ensures FirstOffer(p + q, here) == if FirstOffer(p, here).Some? then FirstOffer(p, here) else FirstOffer(q, here)
  {
    if p == [] {
      assert p + q == q;
    } else {
      assert (p + q)[1..] == p[1..] + q;
      FirstOfferOfSum(p[1..], q, here);
    }
  }

  lemma {:induction false} FindChildrenIsFirstOffer(items: seq<Item>, rest: seq<Item>, target: int, level: int,
                                                    here: string)
    requires level <= target
    ensures FindChildren(items, rest, target, level, here) == FirstOffer(NodesAt(items, rest, target - level), here)
    decreases rest
  {
    if rest != [] {
      var item := rest[0];
      var first := if target == level then [Place(items, item)]
                   else if item.Branch? then NodesAt(item.children, item.children, target - level - 1)
                   else [];
      FirstOfferOfSum(first, NodesAt(items, rest[1..], target - level), here);
      FindChildrenIsFirstOffer(items, rest[1..], target, level, here);
      if item.Branch? {
        var inside := item.children;
        ActiveTestsAgree(inside, here);
        if level < target {
          FindChildrenIsFirstOffer(inside, inside, target, level + 1, here);
        } else {
          NothingBelowTarget(inside, inside, target, level + 1, here);
        }
      }
    }
  }

  /** getChildren returns the offer of the leftmost node at the wanted depth that has one, and
      nothing for a negative level. */
  lemma GetChildrenIsFirstOffer(items: seq<Item>, level: int, here: string)
    ensures GetChildren(items, level, here) ==
            if level < 0 then None else FirstOffer(NodesAt(items, items, level), here)
  {
    if level < 0 {
      NothingBelowTarget(items, items, level, 0, here);
    } else {
      FindChildrenIsFirstOffer(items, items, level, 0, here);
    }
  }

  /** The list is that of the children of some node of the tree. */
  predicate HasList(items: seq<Item>, list: seq<Item>)
    decreases items
  {
    exists i :: 0 <= i < |items| && items[i].Branch? && (items[i].children == list || HasList(items[i].children, list))
  }

  /** What getChildren returns is one of the menu's own lists, as a whole: the top one, or the children
      of a node. */
  lemma {:induction false} ChildrenAreAList(items: seq<Item>, rest: seq<Item>, target: int, level: int, here: string)
    requires FindChildren(items, rest, target, level, here).Some?
    ensures var list := FindChildren(items, rest, target, level, here).value;
            list == items || HasList(rest, list)
    decreases rest
  {
    var item, list := rest[0], FindChildren(items, rest, target, level, here).value;
    if item.Branch? && FindChildren(item.children, item.children, target, level + 1, here).Some? {
      ChildrenAreAList(item.children, item.children, target, level + 1, here);
    }
    if FindChildren(items, rest[1..], target, level, here).Some? {
      ChildrenAreAList(items, rest[1..], target, level, here);
      if HasList(rest[1..], FindChildren(items, rest[1..], target, level, here).value) {
        LaterList(rest, FindChildren(items, rest[1..], target, level, here).value);
      }
    }
  }

  lemma LaterList(items: seq<Item>, list: seq<Item>)
    requires items != [] && HasList(items[1..], list)
    ensures HasList(items, list)
  {
    var i :| 0 <= i < |items[1..]| && items[1..][i].Branch?
             && (items[1..][i].children == list || HasList(items[1..][i].children, list));
    assert items[i + 1] == items[1..][i];
  }

  lemma {:induction false} MemberIsActive(items: seq<Item>, item: Item, here: string)
    requires item in items && Hit(item, here)
    ensures HasActive(items, here)
    decreases items
  {
    if items[0] != item {
      MemberIsActive(items[1..], item, here);
    }
  }

  /** Whatever list getChildren returns, the active page is in it or below it. */
  lemma {:induction false} ChildrenAreActive(items: seq<Item>, rest: seq<Item>, target: int, level: int, here: string)
    requires forall item :: item in rest ==> item in items
    requires FindChildren(items, rest, target, level, here).Some?
    ensures HasActive(FindChildren(items, rest, target, level, here).value, here)
    decreases rest
  {
    var item := rest[0];
    if item.Branch? {
      var inside := item.children;
      ActiveTestsAgree(inside, here);
      if !(target == level && HasActiveAtLevel(inside, here)) {
        if FindChildren(inside, inside, target, level + 1, here).Some? {
          ChildrenAreActive(inside, inside, target, level + 1, here);
        } else {
          ChildrenAreActive(items, rest[1..], target, level, here);
        }
      }
    } else if target == level && HitAtLevel(item, here) {
      MemberIsActive(items, item, here);
    } else {
      ChildrenAreActive(items, rest[1..], target, level, here);
    }
  }
}
