/**
 Ordered groups of items under headers: the `BTreeMap<String, Vec<_>>` in which changelog entries are
 kept (crates/changelog-release-notes/src/range.rs).
 */
module Groups {
  import opened Text

  datatype Group<T> = Group(header: string, items: seq<T>)

  /** One element of the groups with the header it stands under. */
  datatype Item<T> = Item(header: string, value: T)

  predicate Below(a: string, b: string) { TextLe(a, b) && a != b }

  /** Keys are distinct and in order. */
  ghost predicate Ascending<T>(gs: seq<Group<T>>) {
    forall i, j :: 0 <= i < j < |gs| ==> Below(gs[i].header, gs[j].header)
  }

  function Labelled<T>(header: string, items: seq<T>): seq<Item<T>>
    decreases |items|
  {
    if items == [] then [] else [Item(header, items[0])] + Labelled(header, items[1..])
  }

  /** All items in order. */
  function Flat<T>(gs: seq<Group<T>>): seq<Item<T>>
    decreases |gs|
  {
    if gs == [] then [] else Labelled(gs[0].header, gs[0].items) + Flat(gs[1..])
  }

  /** Adding an item at the end of its group, which is made if there is none. */
  function Push<T>(gs: seq<Group<T>>, header: string, x: T): seq<Group<T>>
    decreases |gs|
  {
    if gs == [] then [Group(header, [x])]
    else if gs[0].header == header then [Group(header, gs[0].items + [x])] + gs[1..]
    else if TextLe(header, gs[0].header) then [Group(header, [x])] + gs
    else [gs[0]] + Push(gs[1..], header, x)
  }

  /** Adding the first `k` items one after the other. */
  function Build<T>(items: seq<Item<T>>, k: nat): seq<Group<T>>
    requires k <= |items|
    decreases k
  {
    if k == 0 then [] else Push(Build(items, k - 1), items[k - 1].header, items[k - 1].value)
  }

  lemma {:induction false} LabelledLast<T>(header: string, items: seq<T>, x: T)
    ensures Labelled(header, items + [x]) == Labelled(header, items) + [Item(header, x)]
    decreases |items|
  {
    if items == [] {
      assert [x][1..] == [];
    } else {
      assert (items + [x])[1..] == items[1..] + [x];
      LabelledLast(header, items[1..], x);
    }
  }

  lemma {:induction false} FlatConcat<T>(a: seq<Group<T>>, b: seq<Group<T>>)
    ensures Flat(a + b) == Flat(a) + Flat(b)
    decreases |a|
  {
    if a == [] {
      assert a + b == b;
    } else {
      assert (a + b)[1..] == a[1..] + b;
      FlatConcat(a[1..], b);
    }
  }

  lemma FlatOne<T>(g: Group<T>)
    ensures Flat([g]) == Labelled(g.header, g.items)
  {
    assert [g][1..] == [];
  }

  // ----- no item is lost -----

  /** Pushing puts the one item somewhere among the others. */
  lemma {:induction false} PushAdds<T>(gs: seq<Group<T>>, header: string, x: T)
    returns (a: seq<Item<T>>, b: seq<Item<T>>)
    ensures Flat(gs) == a + b && Flat(Push(gs, header, x)) == a + [Item(header, x)] + b
    decreases |gs|
  {
    var item := Item(header, x);
    if gs == [] {
      a, b := [], [];
      FlatOne(Group(header, [x]));
      LabelledLast(header, [], x);
    } else {
      var g, rest := gs[0], gs[1..];
      if g.header == header {
        a, b := Labelled(header, g.items), Flat(rest);
        LabelledLast(header, g.items, x);
        FlatFirst(Group(header, g.items + [x]), rest);
      } else if TextLe(header, g.header) {
        a, b := [], Flat(gs);
        LabelledLast(header, [], x);
        FlatFirst(Group(header, [x]), gs);
      } else {
        a, b := PushAdds(rest, header, x);
        FlatFirst(g, Push(rest, header, x));
        var first := Labelled(g.header, g.items);
        assert first + (a + [item] + b) == first + a + [item] + b;
        a := first + a;
      }
    }
  }

  lemma FlatFirst<T>(g: Group<T>, rest: seq<Group<T>>)
    ensures Flat([g] + rest) == Labelled(g.header, g.items) + Flat(rest)
  {
    assert ([g] + rest)[1..] == rest;
  }

  lemma PushHolds<T>(gs: seq<Group<T>>, header: string, x: T)
    ensures multiset(Flat(Push(gs, header, x))) == multiset(Flat(gs)) + multiset{Item(header, x)}
  {
    var a, b := PushAdds(gs, header, x);
    OneMore(a, Item(header, x), b);
  }

  lemma HoldsMore<T>(gs: seq<Group<T>>, done: seq<Item<T>>, item: Item<T>)
    requires multiset(Flat(gs)) == multiset(done)
    ensures multiset(Flat(Push(gs, item.header, item.value))) == multiset(done + [item])
  {
    PushHolds(gs, item.header, item.value);
    assert multiset(done + [item]) == multiset(done) + multiset{item};
  }

  lemma OneMore<T>(a: seq<T>, x: T, b: seq<T>)
    ensures multiset(a + [x] + b) == multiset(a + b) + multiset{x}
  {
  }

  lemma TakeMore<T>(s: seq<T>, k: nat)
    requires 0 < k <= |s|
    ensures s[..k] == s[..k - 1] + [s[k - 1]]
  {
  }

  /** The groups hold exactly the items that were added. */
  lemma {:induction false} BuildHolds<T>(items: seq<Item<T>>, k: nat)
    requires k <= |items|
    ensures multiset(Flat(Build(items, k))) == multiset(items[..k])
    decreases k
  {
    if k == 0 {
      assert Build(items, k) == [] && items[..k] == [];
    } else {
      var n := k - 1;
      var item, before := items[n], Build(items, n);
      BuildHolds(items, n);
      HoldsMore(before, items[..n], item);
      TakeMore(items, k);
      assert Build(items, k) == Push(before, item.header, item.value);
    }
  }

  // ----- building from groups gives the groups back -----

  function WithoutEmpty<T>(gs: seq<Group<T>>): seq<Group<T>>
    decreases |gs|
  {
    if gs == [] then []
    else if gs[0].items == [] then WithoutEmpty(gs[1..])
    else [gs[0]] + WithoutEmpty(gs[1..])
  }

  ghost predicate AllBelow<T>(gs: seq<Group<T>>, header: string) {
    forall i :: 0 <= i < |gs| ==> Below(gs[i].header, header)
  }

  /** A new last group. */
  lemma {:induction false} PushNew<T>(gs: seq<Group<T>>, header: string, x: T)
    requires AllBelow(gs, header)
    ensures Push(gs, header, x) == gs + [Group(header, [x])]
    decreases |gs|
  {
    if gs != [] {
      if TextLe(header, gs[0].header) { TextLeAntisymmetric(header, gs[0].header); }
      PushNew(gs[1..], header, x);
    }
  }

  /** One more item in the last group. */
  lemma {:induction false} PushMore<T>(gs: seq<Group<T>>, header: string, xs: seq<T>, x: T)
    requires AllBelow(gs, header)
    ensures Push(gs + [Group(header, xs)], header, x) == gs + [Group(header, xs + [x])]
    decreases |gs|
  {
    var all := gs + [Group(header, xs)];
    if gs == [] {
      assert all[0] == Group(header, xs) && all[1..] == [];
    } else {
      if TextLe(header, gs[0].header) { TextLeAntisymmetric(header, gs[0].header); }
      assert all[0] == gs[0] && all[1..] == gs[1..] + [Group(header, xs)];
      PushMore(gs[1..], header, xs, x);
    }
  }

  function PushAll<T>(gs: seq<Group<T>>, items: seq<Item<T>>): seq<Group<T>>
    decreases |items|
  {
    if items == [] then gs else PushAll(Push(gs, items[0].header, items[0].value), items[1..])
  }

  lemma {:induction false} BuildIsPushAll<T>(items: seq<Item<T>>, k: nat)
    requires k <= |items|
    ensures PushAll(Build(items, k), items[k..]) == Build(items, |items|)
    decreases |items| - k
  {
    if k < |items| {
      assert items[k..][0] == items[k] && items[k..][1..] == items[k + 1..];
      BuildIsPushAll(items, k + 1);
    }
  }

  lemma {:induction false} PushAllConcat<T>(gs: seq<Group<T>>, a: seq<Item<T>>, b: seq<Item<T>>)
    ensures PushAll(gs, a + b) == PushAll(PushAll(gs, a), b)
    decreases |a|
  {
    if a == [] {
      assert a + b == b;
    } else {
      assert (a + b)[1..] == a[1..] + b;
      PushAllConcat(Push(gs, a[0].header, a[0].value), a[1..], b);
    }
  }

  /** The rest of a group goes after what it already has. */
  lemma {:induction false} PushGroupMore<T>(gs: seq<Group<T>>, header: string, xs: seq<T>, more: seq<T>)
    requires AllBelow(gs, header)
    ensures PushAll(gs + [Group(header, xs)], Labelled(header, more)) == gs + [Group(header, xs + more)]
    decreases |more|
  {
    if more == [] {
      assert xs + more == xs;
    } else {
      PushMore(gs, header, xs, more[0]);
      PushGroupMore(gs, header, xs + [more[0]], more[1..]);
      assert xs + [more[0]] + more[1..] == xs + more;
      assert Labelled(header, more)[1..] == Labelled(header, more[1..]);
    }
  }

  lemma PushGroup<T>(gs: seq<Group<T>>, g: Group<T>)
    requires AllBelow(gs, g.header) && g.items != []
    ensures PushAll(gs, Labelled(g.header, g.items)) == gs + [g]
  {
    var all := Labelled(g.header, g.items);
    PushNew(gs, g.header, g.items[0]);
    PushGroupMore(gs, g.header, [g.items[0]], g.items[1..]);
    assert [g.items[0]] + g.items[1..] == g.items;
    assert all[1..] == Labelled(g.header, g.items[1..]);
  }

  lemma {:induction false} PushGroups<T>(gs: seq<Group<T>>, more: seq<Group<T>>)
    requires Ascending(gs + more)
    ensures PushAll(gs, Flat(more)) == gs + WithoutEmpty(more)
    decreases |more|
  {
    if more != [] {
      var g, rest := more[0], more[1..];
      if g.items == [] {
        AscendingWithout(gs, more);
        PushGroups(gs, rest);
        assert Flat(more) == Flat(rest);
      } else {
        AscendingBelow(gs, more);
        PushFirst(gs, g, Flat(rest));
        assert gs + [g] + rest == gs + more;
        PushGroups(gs + [g], rest);
        assert gs + [g] + WithoutEmpty(rest) == gs + ([g] + WithoutEmpty(rest));
      }
    }
  }

  lemma PushFirst<T>(gs: seq<Group<T>>, g: Group<T>, later: seq<Item<T>>)
    requires AllBelow(gs, g.header) && g.items != []
    ensures PushAll(gs, Labelled(g.header, g.items) + later) == PushAll(gs + [g], later)
  {
    PushAllConcat(gs, Labelled(g.header, g.items), later);
    PushGroup(gs, g);
  }

  lemma AscendingBelow<T>(gs: seq<Group<T>>, more: seq<Group<T>>)
    requires Ascending(gs + more) && more != []
    ensures AllBelow(gs, more[0].header)
  {
    forall i | 0 <= i < |gs| ensures Below(gs[i].header, more[0].header) {
      assert (gs + more)[i] == gs[i] && (gs + more)[|gs|] == more[0];
    }
  }

  lemma AscendingWithout<T>(gs: seq<Group<T>>, more: seq<Group<T>>)
    requires Ascending(gs + more) && more != []
    ensures Ascending(gs + more[1..])
  {
    var all, less := gs + more, gs + more[1..];
    forall i, j | 0 <= i < j < |less| ensures Below(less[i].header, less[j].header) {
      var i', j' := if i < |gs| then i else i + 1, if j < |gs| then j else j + 1;
      assert all[i'] == less[i] && all[j'] == less[j];
    }
  }

  /** Flattening and building again only loses the empty groups. */
  lemma BuildFlat<T>(gs: seq<Group<T>>)
    requires Ascending(gs)
    ensures Build(Flat(gs), |Flat(gs)|) == WithoutEmpty(gs)
  {
    BuildIsPushAll(Flat(gs), 0);
    assert Flat(gs)[0..] == Flat(gs);
    assert [] + gs == gs;
    PushGroups([], gs);
  }

  // ----- items already in the order of their headers -----

  ghost predicate SortedItems<T>(items: seq<Item<T>>) {
    forall i, j :: 0 <= i < j < |items| ==> TextLe(items[i].header, items[j].header)
  }

  ghost predicate NoneEmpty<T>(gs: seq<Group<T>>) { forall g :: g in gs ==> g.items != [] }

  lemma BelowTransitive(a: string, b: string, c: string)
    requires (a == b || Below(a, b)) && Below(b, c)
    ensures Below(a, c)
  {
    if a != b {
      TextLeTransitive(a, b, c);
      if a == c { TextLeAntisymmetric(b, c); }
    }
  }

  lemma LastIsHighest<T>(gs: seq<Group<T>>, header: string)
    requires Ascending(gs) && gs != [] && Below(gs[|gs| - 1].header, header)
    ensures AllBelow(gs, header)
  {
    var n := |gs| - 1;
    forall i | 0 <= i < |gs| ensures Below(gs[i].header, header) {
      BelowTransitive(gs[i].header, gs[n].header, header);
    }
  }

  /** What `Build` has made of sorted items. */
  ghost predicate Built<T>(gs: seq<Group<T>>, items: seq<Item<T>>) {
    && Ascending(gs) && NoneEmpty(gs) && Flat(gs) == items
    && (items != [] ==> gs != [] && gs[|gs| - 1].header == items[|items| - 1].header)
  }

  lemma {:induction false} BuiltNew<T>(gs: seq<Group<T>>, items: seq<Item<T>>, item: Item<T>)
    requires Built(gs, items) && AllBelow(gs, item.header)
    ensures Built(Push(gs, item.header, item.value), items + [item])
  {
    var g := Group(item.header, [item.value]);
    PushNew(gs, item.header, item.value);
    FlatConcat(gs, [g]);
    FlatOne(g);
    LabelledLast(item.header, [], item.value);
    assert Labelled(item.header, [item.value]) == [item];
  }

  lemma {:induction false} BuiltMore<T>(gs: seq<Group<T>>, items: seq<Item<T>>, item: Item<T>)
    requires Built(gs, items) && gs != [] && gs[|gs| - 1].header == item.header
    ensures Built(Push(gs, item.header, item.value), items + [item])
  {
    var init, g := gs[..|gs| - 1], gs[|gs| - 1];
    var more := Group(g.header, g.items + [item.value]);
    assert gs == init + [g];
    PushMore(init, g.header, g.items, item.value);
    FlatConcat(init, [g]);
    FlatConcat(init, [more]);
    FlatOne(g);
    FlatOne(more);
    LabelledLast(g.header, g.items, item.value);
    assert Flat(init) + (Labelled(g.header, g.items) + [item]) == Flat(gs) + [item];
    assert forall x :: x in init ==> x in gs;
  }

  /** Sorted items stay in order, in groups that are not empty. */
  lemma {:induction false} BuildSorted<T>(items: seq<Item<T>>, k: nat)
    requires k <= |items| && SortedItems(items)
    ensures Built(Build(items, k), items[..k])
    decreases k
  {
    if k == 0 {
      assert Flat<T>([]) == items[..0];
    } else {
      BuildSorted(items, k - 1);
      BuiltNext(Build(items, k - 1), items[..k - 1], items[k - 1]);
      TakeMore(items, k);
    }
  }

  /** One more item, whose header is the last one or a later one. */
  lemma BuiltNext<T>(gs: seq<Group<T>>, items: seq<Item<T>>, item: Item<T>)
    requires Built(gs, items) && (items != [] ==> TextLe(items[|items| - 1].header, item.header))
    ensures Built(Push(gs, item.header, item.value), items + [item])
  {
    if gs != [] && gs[|gs| - 1].header == item.header {
      BuiltMore(gs, items, item);
    } else {
      if gs != [] {
        NotEmptyBuilt(gs, items);
        LastIsHighest(gs, item.header);
      }
      BuiltNew(gs, items, item);
    }
  }

  lemma NotEmptyBuilt<T>(gs: seq<Group<T>>, items: seq<Item<T>>)
    requires Built(gs, items) && gs != []
    ensures items != []
  {
    assert gs[0] in gs;
    assert Labelled(gs[0].header, gs[0].items) != [];
  }

  lemma {:induction false} LabelledHeaders<T>(header: string, items: seq<T>)
    ensures |Labelled(header, items)| == |items|
    ensures forall i :: 0 <= i < |items| ==> Labelled(header, items)[i] == Item(header, items[i])
    decreases |items|
  {
    if items != [] { LabelledHeaders(header, items[1..]); }
  }

  ghost predicate NotBelow<T>(gs: seq<Group<T>>, header: string) {
    forall i :: 0 <= i < |gs| ==> TextLe(header, gs[i].header)
  }

  lemma {:induction false} FlatNotBelow<T>(gs: seq<Group<T>>, header: string)
    requires NotBelow(gs, header)
    ensures forall i :: 0 <= i < |Flat(gs)| ==> TextLe(header, Flat(gs)[i].header)
    decreases |gs|
  {
    if gs != [] {
      LabelledHeaders(gs[0].header, gs[0].items);
      FlatNotBelow(gs[1..], header);
    }
  }

  lemma {:induction false} FlatSorted<T>(gs: seq<Group<T>>)
    requires Ascending(gs)
    ensures SortedItems(Flat(gs))
    decreases |gs|
  {
    if gs != [] {
      var g := gs[0];
      LabelledHeaders(g.header, g.items);
      FlatSorted(gs[1..]);
      forall i | 0 <= i < |gs[1..]| ensures TextLe(g.header, gs[1..][i].header) {
        assert Below(gs[0].header, gs[i + 1].header);
      }
      FlatNotBelow(gs[1..], g.header);
      TextLeTotal(g.header, g.header);
      SortedConcat(Labelled(g.header, g.items), Flat(gs[1..]), g.header);
    }
  }

  lemma SortedConcat<T>(a: seq<Item<T>>, b: seq<Item<T>>, header: string)
    requires (forall i :: 0 <= i < |a| ==> a[i].header == header) && TextLe(header, header)
    requires SortedItems(b) && forall i :: 0 <= i < |b| ==> TextLe(header, b[i].header)
    ensures SortedItems(a + b)
  {
  }

  // ----- items in any order -----

  /** What stands under a header. */
  function Under<T>(gs: seq<Group<T>>, header: string): seq<T>
    decreases |gs|
  {
    if gs == [] then [] else (if gs[0].header == header then gs[0].items else []) + Under(gs[1..], header)
  }

  /** The values that came with a header, in the order they came. */
  function CameWith<T>(items: seq<Item<T>>, k: nat, header: string): seq<T>
    requires k <= |items|
    decreases k
  {
    if k == 0 then []
    else CameWith(items, k - 1, header) + if items[k - 1].header == header then [items[k - 1].value] else []
  }

  ghost predicate AllAbove<T>(gs: seq<Group<T>>, header: string) {
    forall i :: 0 <= i < |gs| ==> Below(header, gs[i].header)
  }

  lemma {:induction false} NothingUnder<T>(gs: seq<Group<T>>, header: string)
    requires AllAbove(gs, header)
    ensures Under(gs, header) == []
    decreases |gs|
  {
    if gs != [] { NothingUnder(gs[1..], header); }
  }

  lemma AscendingCons<T>(g: Group<T>, rest: seq<Group<T>>)
    ensures Ascending([g] + rest) <==> AllAbove(rest, g.header) && Ascending(rest)
  {
    var all := [g] + rest;
    if Ascending(all) {
      forall i | 0 <= i < |rest| ensures Below(g.header, rest[i].header) {
        assert all[0] == g && all[i + 1] == rest[i];
      }
      forall i, j | 0 <= i < j < |rest| ensures Below(rest[i].header, rest[j].header) {
        assert all[i + 1] == rest[i] && all[j + 1] == rest[j];
      }
    }
  }

  lemma UnderCons<T>(g: Group<T>, rest: seq<Group<T>>, header: string)
    ensures Under([g] + rest, header) == (if g.header == header then g.items else []) + Under(rest, header)
  {
    assert ([g] + rest)[1..] == rest;
  }

  lemma NotAbove(a: string, b: string)
    requires !TextLe(a, b)
    ensures Below(b, a)
  {
    TextLeTotal(a, b);
  }

  lemma {:induction false} PushAbove<T>(gs: seq<Group<T>>, header: string, x: T, low: string)
    requires AllAbove(gs, low) && Below(low, header)
    ensures AllAbove(Push(gs, header, x), low)
    decreases |gs|
  {
    if gs != [] { PushAbove(gs[1..], header, x, low); }
  }

  lemma AboveAll<T>(gs: seq<Group<T>>, header: string)
    requires Ascending(gs) && gs != [] && Below(header, gs[0].header)
    ensures AllAbove(gs, header)
  {
    forall i | 0 <= i < |gs| ensures Below(header, gs[i].header) {
      if i > 0 { BelowTransitive(header, gs[0].header, gs[i].header); }
    }
  }

  /** Pushing keeps the headers in order and adds the item at the end of what stands under its header. */
  lemma {:induction false} PushKeepsOrder<T>(gs: seq<Group<T>>, header: string, x: T, h: string)
    requires Ascending(gs)
    ensures Ascending(Push(gs, header, x))
    ensures Under(Push(gs, header, x), h) == Under(gs, h) + if h == header then [x] else []
    decreases |gs|
  {
    if gs == [] {
      UnderCons(Group(header, [x]), [], h);
      assert [Group(header, [x])] + [] == [Group(header, [x])];
    } else {
      var g, rest := gs[0], gs[1..];
      assert gs == [g] + rest;
      AscendingCons(g, rest);
      UnderCons(g, rest, h);
      if g.header == header {
        AscendingCons(Group(header, g.items + [x]), rest);
        UnderCons(Group(header, g.items + [x]), rest, h);
        NothingUnder(rest, header);
      } else if TextLe(header, g.header) {
        AboveAll(gs, header);
        AscendingCons(Group(header, [x]), gs);
        UnderCons(Group(header, [x]), gs, h);
        NothingUnder(gs, header);
      } else {
        NotAbove(header, g.header);
        PushKeepsOrder(rest, header, x, h);
        PushAbove(rest, header, x, g.header);
        AscendingCons(g, Push(rest, header, x));
        UnderCons(g, Push(rest, header, x), h);
      }
    }
  }

  /**
   The ordered map, whatever order the items come in: its headers are in order, and under each of
   them stands what came with it, in the order it came.
   */
  lemma {:induction false} BuildIs<T>(items: seq<Item<T>>, k: nat, header: string)
    requires k <= |items|
    ensures Ascending(Build(items, k)) && Under(Build(items, k), header) == CameWith(items, k, header)
    decreases k
  {
    if k > 0 {
      BuildIs(items, k - 1, header);
      PushKeepsOrder(Build(items, k - 1), items[k - 1].header, items[k - 1].value, header);
    }
  }
}
