/** The menu machinery of the older Win32 tray, `SysTrayIcon` (main.py:21-181):
    numbering a nested option tree with a running id counter, building the
    native menu from it, and dispatching a clicked id.  The actions an option
    carries are Python values; callables are left abstract as `A`. */
module SysTray {
  import opened Wrappers

  const FirstId: int := 1023
  const QuitAction: string := "QUIT"
  const QuitText: string := "Quit"
  const QuitIcon: string := "myIcon_QUIT.ico"

  /** The kinds of value an option's action can be: a callable, a string, a
      tuple of options, or anything else (a number, `None`, ...). */
  datatype Value<A> =
    | Call(f: A)
    | Str(s: string)
    | Options(items: seq<MenuOption<A>>)
    | Other

  /** An option `(text, icon, action)` as the caller passes it. */
  datatype MenuOption<A> = MenuOption(text: string, icon: Option<string>, action: Value<A>)

  predicate Iterable<A>(v: Value<A>) {
    v.Str? || v.Options?
  }

  /** `non_string_iterable` (main.py:175-181): `iter` succeeds and the value
      is not a `str`; among the values above, exactly the option tuples. */
  function NonStringIterable<A>(v: Value<A>): (r: bool)
    ensures r <==> v.Options?
    ensures r ==> Iterable(v)
  {
    if !Iterable(v) then false else !v.Str?
  }

  /** `option_action in SPECIAL_ACTIONS`: the `QUIT` string. */
  predicate IsSpecial<A>(v: Value<A>) {
    v.Str? && v.s == QuitAction
  }

  /** The actions `_add_ids_to_menu_options` registers: callables and `QUIT`. */
  predicate IsLeafAction<A>(v: Value<A>) {
    v.Call? || IsSpecial(v)
  }

  /** Whether the walk descends into the option's action as a submenu. */
  predicate IsSubmenu<A>(o: MenuOption<A>) {
    !IsLeafAction(o.action) && NonStringIterable(o.action)
  }

  /** A numbered option: `(text, icon, action, id)` for a leaf and
      `(text, icon, numbered children, id)` for a submenu. */
  datatype Item<A> =
    | Leaf(text: string, icon: Option<string>, action: Value<A>, id: int)
    | Sub(text: string, icon: Option<string>, children: seq<Item<A>>, id: int)

  /** What one numbering pass returns: the numbered options, the counter
      after the pass, and the registered `(id, action)` pairs. */
  datatype Numbering<A> = Numbering(items: seq<Item<A>>, next: int, actions: map<int, Value<A>>)

  /** Number of counter steps a pass over `options` takes: one per option
      visited, submenu contents included. */
  function Count<A>(options: seq<MenuOption<A>>): nat
    decreases options
  {
    if options == [] then 0 else OptionCount(options[0]) + Count(options[1..])
  }

  function OptionCount<A>(o: MenuOption<A>): nat
    decreases o
  {
    1 + if IsSubmenu(o) then Count(o.action.items) else 0
  }

  /** `_add_ids_to_menu_options` (main.py:63-75) starting from counter `next`. */
  function AddIds<A>(options: seq<MenuOption<A>>, next: int): (r: Numbering<A>)
    ensures r.next == next + Count(options)
    decreases options
  {
    if options == [] then Numbering([], next, map[])
    else
      var head := NumberOne(options[0], next);
      var tail := AddIds(options[1..], head.next);
      Numbering(head.items + tail.items, tail.next, head.actions + tail.actions)
  }

  /** One iteration of that loop.  A leaf takes the current id; a submenu
      numbers its children first and takes the id the counter has reached
      after them; an option of any other kind is dropped; every option
      advances the counter by one. */
  function NumberOne<A>(o: MenuOption<A>, next: int): (r: Numbering<A>)
    ensures r.next == next + OptionCount(o)
    ensures |r.items| <= 1
    decreases o
  {
    if IsLeafAction(o.action) then
      Numbering([Leaf(o.text, o.icon, o.action, next)], next + 1, map[next := o.action])
    else if NonStringIterable(o.action) then
      var inner := AddIds(o.action.items, next);
      Numbering([Sub(o.text, o.icon, inner.items, inner.next)], inner.next + 1, inner.actions)
    else
      Numbering([], next + 1, map[])
  }

  /** The option tree that survives numbering: unknown options removed. */
  function Known<A>(options: seq<MenuOption<A>>): seq<MenuOption<A>>
    decreases options
  {
    if options == [] then [] else KnownOne(options[0]) + Known(options[1..])
  }

  function KnownOne<A>(o: MenuOption<A>): seq<MenuOption<A>>
    decreases o
  {
    if IsLeafAction(o.action) then [o]
    else if NonStringIterable(o.action) then [MenuOption(o.text, o.icon, Options(Known(o.action.items)))]
    else []
  }

  /** Forgets the ids of a numbered tree. */
  function Strip<A>(items: seq<Item<A>>): seq<MenuOption<A>>
    decreases items
  {
    if items == [] then [] else [StripOne(items[0])] + Strip(items[1..])
  }

  function StripOne<A>(it: Item<A>): MenuOption<A>
    decreases it
  {
    match it
    case Leaf(t, i, a, _) => MenuOption(t, i, a)
    case Sub(t, i, ch, _) => MenuOption(t, i, Options(Strip(ch)))
  }

  /** All ids of a numbered tree, children before their submenu. */
  function ItemIds<A>(items: seq<Item<A>>): seq<int>
    decreases items
  {
    if items == [] then [] else IdsOf(items[0]) + ItemIds(items[1..])
  }

  function IdsOf<A>(it: Item<A>): seq<int>
    decreases it
  {
    match it
    case Leaf(_, _, _, id) => [id]
    case Sub(_, _, ch, id) => ItemIds(ch) + [id]
  }

  /** The ids of the leaves. */
  function LeafIds<A>(items: seq<Item<A>>): set<int>
    decreases items
  {
    if items == [] then {} else LeafIdsOf(items[0]) + LeafIds(items[1..])
  }

  function LeafIdsOf<A>(it: Item<A>): set<int>
    decreases it
  {
    match it
    case Leaf(_, _, _, id) => {id}
    case Sub(_, _, ch, _) => LeafIds(ch)
  }

  /** The ids of the submenus. */
  function SubIds<A>(items: seq<Item<A>>): set<int>
    decreases items
  {
    if items == [] then {} else SubIdsOf(items[0]) + SubIds(items[1..])
  }

  function SubIdsOf<A>(it: Item<A>): set<int>
    decreases it
  {
    match it
    case Leaf(_, _, _, _) => {}
    case Sub(_, _, ch, id) => SubIds(ch) + {id}
  }

  /** The dictionary a numbered tree should come with: each leaf's id to
      that leaf's action. */
  function LeafMap<A>(items: seq<Item<A>>): map<int, Value<A>>
    decreases items
  {
    if items == [] then map[] else LeafMapOf(items[0]) + LeafMap(items[1..])
  }

  function LeafMapOf<A>(it: Item<A>): map<int, Value<A>>
    decreases it
  {
    match it
    case Leaf(_, _, a, id) => map[id := a]
    case Sub(_, _, ch, _) => LeafMap(ch)
  }

  /** Every leaf of the tree carries a callable or `QUIT`. */
  predicate LeavesAct<A>(items: seq<Item<A>>)
    decreases items
  {
    items == [] || (LeafActs(items[0]) && LeavesAct(items[1..]))
  }

  predicate LeafActs<A>(it: Item<A>)
    decreases it
  {
    match it
    case Leaf(_, _, a, _) => IsLeafAction(a)
    case Sub(_, _, ch, _) => LeavesAct(ch)
  }

  predicate Increasing(s: seq<int>) {
    forall i, j :: 0 <= i < j < |s| ==> s[i] < s[j]
  }

  predicate InRange(s: seq<int>, lo: int, hi: int) {
    forall i :: 0 <= i < |s| ==> lo <= s[i] < hi
  }

  predicate SetInRange(s: set<int>, lo: int, hi: int) {
    forall x :: x in s ==> lo <= x < hi
  }

  lemma IncreasingConcat(a: seq<int>, b: seq<int>, lo: int, mid: int, hi: int)
    requires lo <= mid <= hi
    requires Increasing(a) && InRange(a, lo, mid)
    requires Increasing(b) && InRange(b, mid, hi)
    ensures Increasing(a + b) && InRange(a + b, lo, hi)
  {
    var s := a + b;
    forall i, j | 0 <= i < j < |s| ensures s[i] < s[j] {
      if j < |a| {
        assert s[i] == a[i] && s[j] == a[j];
      } else if i >= |a| {
        assert s[i] == b[i - |a|] && s[j] == b[j - |a|];
      } else {
        assert s[i] == a[i] && s[j] == b[j - |a|];
      }
    }
    forall i | 0 <= i < |s| ensures lo <= s[i] < hi {
      if i < |a| {
        assert s[i] == a[i];
      } else {
        assert s[i] == b[i - |a|];
      }
    }
  }

  /** The tree functions distribute over a head of at most one item. */
  lemma ConsIds<A>(h: seq<Item<A>>, t: seq<Item<A>>)
    requires |h| <= 1
    ensures ItemIds(h + t) == ItemIds(h) + ItemIds(t)
    ensures LeafIds(h + t) == LeafIds(h) + LeafIds(t)
    ensures SubIds(h + t) == SubIds(h) + SubIds(t)
  {
    if h == [] {
      assert h + t == t;
    } else {
      assert (h + t)[0] == h[0] && (h + t)[1..] == t;
      assert h[1..] == [];
    }
  }

  lemma ConsMap<A>(h: seq<Item<A>>, t: seq<Item<A>>)
    requires |h| <= 1
    ensures LeafMap(h + t) == LeafMap(h) + LeafMap(t)
    ensures LeavesAct(h + t) <==> LeavesAct(h) && LeavesAct(t)
    ensures Strip(h + t) == Strip(h) + Strip(t)
  {
    if h == [] {
      assert h + t == t;
    } else {
      assert (h + t)[0] == h[0] && (h + t)[1..] == t;
      assert h[1..] == [];
    }
  }

  /** Numbering hands out strictly increasing ids, children before their
      submenu, all from the range the counter passes through. */
  lemma {:induction false} AddIdsIncreasing<A>(options: seq<MenuOption<A>>, next: int)
    ensures var r := AddIds(options, next);
      Increasing(ItemIds(r.items)) && InRange(ItemIds(r.items), next, r.next)
    decreases options
  {
    if options != [] {
      var h := NumberOne(options[0], next);
      var t := AddIds(options[1..], h.next);
      assert AddIds(options, next).items == h.items + t.items;
      NumberOneIncreasing(options[0], next);
      AddIdsIncreasing(options[1..], h.next);
      ConsIds(h.items, t.items);
      IncreasingConcat(ItemIds(h.items), ItemIds(t.items), next, h.next, t.next);
    }
  }

  lemma {:induction false} NumberOneIncreasing<A>(o: MenuOption<A>, next: int)
    ensures var r := NumberOne(o, next);
      Increasing(ItemIds(r.items)) && InRange(ItemIds(r.items), next, r.next)
    decreases o
  {
    var r := NumberOne(o, next);
    if IsLeafAction(o.action) {
      assert r.items[1..] == [];
    } else if NonStringIterable(o.action) {
      var inner := AddIds(o.action.items, next);
      AddIdsIncreasing(o.action.items, next);
      assert r.items[1..] == [];
      assert ItemIds(r.items) == ItemIds(inner.items) + [inner.next];
      IncreasingConcat(ItemIds(inner.items), [inner.next], next, inner.next, inner.next + 1);
    }
  }

  /** Leaf ids and submenu ids come from the counter's range and never
      coincide. */
  lemma {:induction false} AddIdsSeparate<A>(options: seq<MenuOption<A>>, next: int)
    ensures var r := AddIds(options, next);
      && SetInRange(LeafIds(r.items), next, r.next)
      && SetInRange(SubIds(r.items), next, r.next)
      && LeafIds(r.items) !! SubIds(r.items)
    decreases options
  {
    if options != [] {
      var h := NumberOne(options[0], next);
      var t := AddIds(options[1..], h.next);
      assert AddIds(options, next).items == h.items + t.items;
      NumberOneSeparate(options[0], next);
      AddIdsSeparate(options[1..], h.next);
      ConsIds(h.items, t.items);
      forall x | x in LeafIds(h.items) ensures x !in SubIds(t.items) {
        assert x < h.next;
      }
      forall x | x in SubIds(h.items) ensures x !in LeafIds(t.items) {
        assert x < h.next;
      }
    }
  }

  lemma {:induction false} NumberOneSeparate<A>(o: MenuOption<A>, next: int)
    ensures var r := NumberOne(o, next);
      && SetInRange(LeafIds(r.items), next, r.next)
      && SetInRange(SubIds(r.items), next, r.next)
      && LeafIds(r.items) !! SubIds(r.items)
    decreases o
  {
    var r := NumberOne(o, next);
    if IsLeafAction(o.action) {
      assert r.items[1..] == [];
    } else if NonStringIterable(o.action) {
      var inner := AddIds(o.action.items, next);
      AddIdsSeparate(o.action.items, next);
      assert r.items[1..] == [];
      assert LeafIds(r.items) == LeafIds(inner.items);
      assert SubIds(r.items) == SubIds(inner.items) + {inner.next};
    }
  }

  /** The registered dictionary maps exactly each leaf's id to that leaf's
      action, and every leaf carries a callable or `QUIT`. */
  lemma {:induction false} AddIdsActions<A>(options: seq<MenuOption<A>>, next: int)
    ensures var r := AddIds(options, next);
      r.actions == LeafMap(r.items) && LeavesAct(r.items)
    decreases options
  {
    if options != [] {
      var h := NumberOne(options[0], next);
      var t := AddIds(options[1..], h.next);
      assert AddIds(options, next).items == h.items + t.items;
      assert AddIds(options, next).actions == h.actions + t.actions;
      NumberOneActions(options[0], next);
      AddIdsActions(options[1..], h.next);
      ConsMap(h.items, t.items);
    }
  }

  lemma {:induction false} NumberOneActions<A>(o: MenuOption<A>, next: int)
    ensures var r := NumberOne(o, next);
      r.actions == LeafMap(r.items) && LeavesAct(r.items)
    decreases o
  {
    var r := NumberOne(o, next);
    if IsLeafAction(o.action) {
      assert r.items[1..] == [];
      assert r.items[0] == Leaf(o.text, o.icon, o.action, next);
      assert LeafActs(r.items[0]) && LeavesAct(r.items[1..]);
    } else if NonStringIterable(o.action) {
      var inner := AddIds(o.action.items, next);
      AddIdsActions(o.action.items, next);
      assert r.items[1..] == [];
      assert r.items[0] == Sub(o.text, o.icon, inner.items, inner.next);
      assert LeafMap(r.items) == LeafMap(inner.items) + map[];
      assert LeafActs(r.items[0]) && LeavesAct(r.items[1..]);
    }
  }

  /** Numbering drops exactly the options of unknown kind and keeps the
      rest, with their texts, icons and actions, in order. */
  lemma {:induction false} AddIdsKeepsKnown<A>(options: seq<MenuOption<A>>, next: int)
    ensures Strip(AddIds(options, next).items) == Known(options)
    decreases options
  {
    if options != [] {
      var h := NumberOne(options[0], next);
      var t := AddIds(options[1..], h.next);
      assert AddIds(options, next).items == h.items + t.items;
      NumberOneKeepsKnown(options[0], next);
      AddIdsKeepsKnown(options[1..], h.next);
      ConsMap(h.items, t.items);
    }
  }

  lemma {:induction false} NumberOneKeepsKnown<A>(o: MenuOption<A>, next: int)
    ensures Strip(NumberOne(o, next).items) == KnownOne(o)
    decreases o
  {
    var r := NumberOne(o, next);
    if IsLeafAction(o.action) {
      assert r.items[1..] == [];
    } else if NonStringIterable(o.action) {
      AddIdsKeepsKnown(o.action.items, next);
      assert r.items[1..] == [];
    }
  }

  /** The option the constructor appends (main.py:34). */
  function QuitOption<A>(): MenuOption<A> {
    MenuOption(QuitText, Some(QuitIcon), Str(QuitAction))
  }

  /** `SysTrayIcon.__init__`'s numbering (main.py:34-38): the Quit option is
      appended and the whole tree is numbered from `FirstId`. */
  function Setup<A>(options: seq<MenuOption<A>>): Numbering<A> {
    AddIds(options + [QuitOption()], FirstId)
  }

  /** Numbering `a + b` numbers `a`, then `b` from where `a` stopped. */
  lemma {:induction false} AddIdsAppendItems<A>(a: seq<MenuOption<A>>, b: seq<MenuOption<A>>, next: int)
    ensures var ra := AddIds(a, next);
      AddIds(a + b, next).items == ra.items + AddIds(b, ra.next).items
    decreases a
  {
    if a == [] {
      assert a + b == b;
    } else {
      assert (a + b)[0] == a[0];
      assert (a + b)[1..] == a[1..] + b;
      var h := NumberOne(a[0], next);
      AddIdsAppendItems(a[1..], b, h.next);
      AddIdsCons(a + b, next);
      AddIdsCons(a, next);
    }
  }

  /** Numbering a non-empty list numbers its head, then the rest. */
  lemma AddIdsCons<A>(os: seq<MenuOption<A>>, next: int)
    requires os != []
    ensures var h := NumberOne(os[0], next);
      AddIds(os, next).items == h.items + AddIds(os[1..], h.next).items
  {
  }

  lemma {:induction false} AddIdsAppendActions<A>(a: seq<MenuOption<A>>, b: seq<MenuOption<A>>, next: int)
    ensures var ra := AddIds(a, next);
      AddIds(a + b, next).actions == ra.actions + AddIds(b, ra.next).actions
    decreases a
  {
    if a == [] {
      assert a + b == b;
    } else {
      assert (a + b)[0] == a[0];
      assert (a + b)[1..] == a[1..] + b;
      var h := NumberOne(a[0], next);
      AddIdsAppendActions(a[1..], b, h.next);
      var ra := AddIds(a[1..], h.next);
      var rab := AddIds(a[1..] + b, h.next);
      assert AddIds(a + b, next).actions == h.actions + rab.actions;
      assert AddIds(a, next).actions == h.actions + ra.actions;
      UnionAssoc(h.actions, ra.actions, AddIds(b, ra.next).actions);
    }
  }

  lemma UnionAssoc<K, V>(x: map<K, V>, y: map<K, V>, z: map<K, V>)
    ensures x + (y + z) == (x + y) + z
  {
  }

  lemma {:induction false} CountAppend<A>(a: seq<MenuOption<A>>, b: seq<MenuOption<A>>)
    ensures Count(a + b) == Count(a) + Count(b)
    decreases a
  {
    if a == [] {
      assert a + b == b;
    } else {
      assert (a + b)[0] == a[0];
      assert (a + b)[1..] == a[1..] + b;
      CountAppend(a[1..], b);
    }
  }

  /** Numbering one more option after `a` continues where `a` stopped. */
  lemma AddIdsSnoc<A>(a: seq<MenuOption<A>>, o: MenuOption<A>, next: int)
    ensures var ra := AddIds(a, next); var rb := AddIds([o], ra.next); var r := AddIds(a + [o], next);
      && r.items == ra.items + rb.items
      && r.actions == ra.actions + rb.actions
      && r.next == rb.next
  {
    AddIdsAppendItems(a, [o], next);
    AddIdsAppendActions(a, [o], next);
    CountAppend(a, [o]);
  }

  /** The Quit option is always the last top-level item, numbered
      `FirstId + Count(options)`, and registered with the `QUIT` action. */
  lemma SetupQuitLast<A>(options: seq<MenuOption<A>>)
    ensures var r := Setup(options); var q := FirstId + Count(options);
      && |r.items| >= 1
      && r.items[|r.items| - 1] == Leaf(QuitText, Some(QuitIcon), Str(QuitAction), q)
      && r.next == q + 1
      && q in r.actions && r.actions[q] == Str(QuitAction)
  {
    var ra := AddIds(options, FirstId);
    var q := ra.next;
    var quit := Leaf(QuitText, Some(QuitIcon), Str(QuitAction), q);
    AddIdsSnoc(options, QuitOption(), FirstId);
    QuitNumbering<A>(q);
    var r := Setup(options);
    assert r.items == ra.items + [quit] && r.actions == ra.actions + map[q := Str(QuitAction)];
    LastOfSnoc(ra.items, quit);
    UnionWithNew(ra.actions, q, Str(QuitAction));
  }

  lemma LastOfSnoc<T>(s: seq<T>, x: T)
    ensures |s + [x]| >= 1 && (s + [x])[|s + [x]| - 1] == x
  {
  }

  lemma UnionWithNew<K, V>(m: map<K, V>, k: K, v: V)
    ensures k in m + map[k := v] && (m + map[k := v])[k] == v
  {
  }

  lemma QuitNumbering<A>(next: int)
    ensures AddIds([QuitOption<A>()], next)
      == Numbering([Leaf(QuitText, Some(QuitIcon), Str(QuitAction), next)], next + 1,
                   map[next := Str(QuitAction)])
  {
    assert [QuitOption<A>()][1..] == [];
  }

  /** A native menu entry: a command with its id, or a popup. */
  datatype NativeItem =
    | Command(text: string, icon: Option<string>, id: int)
    | Popup(text: string, icon: Option<string>, submenu: seq<NativeItem>)

  /** Every leaf's id is registered: `create_menu` would otherwise try to
      iterate a leaf's action as a submenu and raise. */
  predicate Registered<A>(items: seq<Item<A>>, ids: set<int>)
    decreases items
  {
    items == [] || (RegisteredOne(items[0], ids) && Registered(items[1..], ids))
  }

  predicate RegisteredOne<A>(it: Item<A>, ids: set<int>)
    decreases it
  {
    match it
    case Leaf(_, _, _, id) => id in ids
    case Sub(_, _, ch, _) => Registered(ch, ids)
  }

  /** The native menu the tree stands for, in the tree's order: a registered
      id gives a command, anything else a popup of its children. */
  function Render<A>(items: seq<Item<A>>, ids: set<int>): seq<NativeItem>
    requires Registered(items, ids)
    decreases items
  {
    if items == [] then [] else [RenderOne(items[0], ids)] + Render(items[1..], ids)
  }

  function RenderOne<A>(it: Item<A>, ids: set<int>): NativeItem
    requires RegisteredOne(it, ids)
    decreases it
  {
    if it.id in ids then Command(it.text, it.icon, it.id)
    else Popup(it.text, it.icon, Render(it.children, ids))
  }

  /** `create_menu` (main.py:123-135): walks the options back to front and
      inserts each at position 0 of `menu`, so the result lists them in
      their own order ahead of what `menu` held. */
  method CreateMenu<A>(menu: seq<NativeItem>, items: seq<Item<A>>, ids: set<int>)
    returns (r: seq<NativeItem>)
    requires Registered(items, ids)
    ensures r == Render(items, ids) + menu
    decreases items
  {
    r := menu;
    var i := |items|;
    RegisteredSuffixes(items, ids);
    while i > 0
      invariant 0 <= i <= |items|
      invariant r == Render(items[i..], ids) + menu
    {
      i := i - 1;
      var it := items[i];
      assert items[i..][0] == it && items[i..][1..] == items[i + 1..];
      if it.id in ids {
        r := [Command(it.text, it.icon, it.id)] + r;
      } else {
        var sub := CreateMenu([], it.children, ids);
        assert sub == Render(it.children, ids);
        r := [Popup(it.text, it.icon, sub)] + r;
      }
    }
    assert items[0..] == items;
  }

  lemma {:induction false} RegisteredSuffixes<A>(items: seq<Item<A>>, ids: set<int>)
    requires Registered(items, ids)
    ensures forall i :: 0 <= i <= |items| ==> Registered(items[i..], ids)
    ensures forall i :: 0 <= i < |items| ==> RegisteredOne(items[i], ids)
    decreases |items|
  {
    if items != [] {
      RegisteredSuffixes(items[1..], ids);
      forall i | 0 < i <= |items| ensures Registered(items[i..], ids) {
        assert items[i..] == items[1..][i - 1..];
      }
      forall i | 0 < i < |items| ensures RegisteredOne(items[i], ids) {
        assert items[i] == items[1..][i - 1];
      }
      assert items[0..] == items;
    }
  }

  /** The native menu of a well-numbered tree mirrors it exactly: leaves
      become commands, submenus popups, nothing reordered. */
  function Mirror<A>(items: seq<Item<A>>): seq<NativeItem>
    decreases items
  {
    if items == [] then [] else [MirrorOne(items[0])] + Mirror(items[1..])
  }

  function MirrorOne<A>(it: Item<A>): NativeItem
    decreases it
  {
    match it
    case Leaf(t, i, _, id) => Command(t, i, id)
    case Sub(t, i, ch, _) => Popup(t, i, Mirror(ch))
  }

  lemma {:induction false} RenderMirrors<A>(items: seq<Item<A>>, ids: set<int>)
    requires LeafIds(items) <= ids && SubIds(items) !! ids
    ensures Registered(items, ids)
    ensures Render(items, ids) == Mirror(items)
    decreases items
  {
    if items != [] {
      RenderMirrors(items[1..], ids);
      RenderMirrorsOne(items[0], ids);
    }
  }

  lemma {:induction false} RenderMirrorsOne<A>(it: Item<A>, ids: set<int>)
    requires LeafIdsOf(it) <= ids && SubIdsOf(it) !! ids
    ensures RegisteredOne(it, ids)
    ensures RenderOne(it, ids) == MirrorOne(it)
    decreases it
  {
    if it.Sub? {
      RenderMirrors(it.children, ids);
    }
  }

  lemma {:induction false} LeafMapKeys<A>(items: seq<Item<A>>)
    ensures LeafMap(items).Keys == LeafIds(items)
    decreases items
  {
    if items != [] {
      LeafMapKeys(items[1..]);
      if items[0].Sub? {
        LeafMapKeys(items[0].children);
      }
    }
  }

  /** The menu built at start-up mirrors the numbered options. */
  lemma SetupMenuMirrors<A>(options: seq<MenuOption<A>>)
    ensures var r := Setup(options);
      Registered(r.items, r.actions.Keys)
      && Render(r.items, r.actions.Keys) == Mirror(r.items)
  {
    var r := Setup(options);
    AddIdsSeparate(options + [QuitOption()], FirstId);
    AddIdsActions(options + [QuitOption()], FirstId);
    LeafMapKeys(r.items);
    RenderMirrors(r.items, r.actions.Keys);
  }

  /** What a click on a menu id does. */
  datatype Effect<A> = DestroyWindow | Invoke(f: A)

  datatype DispatchError = UnknownId(id: int) | NotCallable(id: int)

  /** `execute_menu_option` (main.py:168-173): an unregistered id raises
      `KeyError`; `QUIT` destroys the window; any other action is called,
      which raises for a value that is not callable. */
  function Execute<A>(actions: map<int, Value<A>>, id: int): (r: Result<Effect<A>, DispatchError>)
    ensures r.Success? <==> id in actions && IsLeafAction(actions[id])
    ensures r.Success? && r.value.DestroyWindow? <==> id in actions && IsSpecial(actions[id])
    ensures r.Success? && r.value.Invoke? ==> actions[id] == Call(r.value.f)
    ensures id !in actions ==> r == Failure(UnknownId(id))
  {
    if id !in actions then Failure(UnknownId(id))
    else
      var a := actions[id];
      if a.Str? && a.s == QuitAction then Success(DestroyWindow)
      else if a.Call? then Success(Invoke(a.f))
      else Failure(NotCallable(id))
  }

  lemma {:induction false} LeafActionsAct<A>(items: seq<Item<A>>, id: int)
    requires LeavesAct(items)
    ensures id in LeafMap(items) ==> IsLeafAction(LeafMap(items)[id])
    decreases items
  {
    if items != [] {
      LeafActionsAct(items[1..], id);
      if items[0].Sub? {
        LeafActionsAct(items[0].children, id);
      }
    }
  }

  /** On the actions registered for a menu, a click succeeds exactly on a
      leaf id and a submenu id is unknown. */
  lemma ExecuteLeafMap<A>(items: seq<Item<A>>, id: int)
    requires LeavesAct(items) && LeafIds(items) !! SubIds(items)
    ensures Execute(LeafMap(items), id).Success? <==> id in LeafIds(items)
    ensures id in SubIds(items) ==> Execute(LeafMap(items), id) == Failure(UnknownId(id))
  {
    LeafMapKeys(items);
    LeafActionsAct(items, id);
  }

  /** After start-up, a click succeeds exactly on a leaf id and a submenu
      id is unknown to the dispatcher. */
  lemma SetupDispatch<A>(options: seq<MenuOption<A>>, id: int)
    ensures var r := Setup(options);
      && (Execute(r.actions, id).Success? <==> id in LeafIds(r.items))
      && (id in SubIds(r.items) ==> Execute(r.actions, id) == Failure(UnknownId(id)))
  {
    var r := Setup(options);
    assert r.actions == LeafMap(r.items) && LeavesAct(r.items) by {
      AddIdsActions(options + [QuitOption()], FirstId);
    }
    assert LeafIds(r.items) !! SubIds(r.items) by {
      AddIdsSeparate(options + [QuitOption()], FirstId);
    }
    ExecuteLeafMap(r.items, id);
  }

  /** Every callable in the option tree satisfies `P`. */
  predicate CallsSatisfy<A>(options: seq<MenuOption<A>>, P: A -> bool)
    decreases options
  {
    options == [] || (CallSatisfies(options[0], P) && CallsSatisfy(options[1..], P))
  }

  predicate CallSatisfies<A>(o: MenuOption<A>, P: A -> bool)
    decreases o
  {
    match o.action
    case Call(f) => P(f)
    case Options(items) => CallsSatisfy(items, P)
    case _ => true
  }

  /** Every callable registered in `m` satisfies `P`. */
  ghost predicate ActionsSatisfy<A>(m: map<int, Value<A>>, P: A -> bool) {
    forall id :: id in m && m[id].Call? ==> P(m[id].f)
  }

  /** Every callable the numbering registers comes from the option tree. */
  lemma {:induction false} AddIdsCallsSatisfy<A>(options: seq<MenuOption<A>>, next: int, P: A -> bool)
    requires CallsSatisfy(options, P)
    ensures ActionsSatisfy(AddIds(options, next).actions, P)
    decreases options
  {
    if options != [] {
      var h := NumberOne(options[0], next);
      var t := AddIds(options[1..], h.next);
      var m := AddIds(options, next).actions;
      assert m == h.actions + t.actions;
      NumberOneCallsSatisfy(options[0], next, P);
      AddIdsCallsSatisfy(options[1..], h.next, P);
      forall id | id in m && m[id].Call? ensures P(m[id].f) {
        if id in t.actions {
          assert m[id] == t.actions[id];
        } else {
          assert m[id] == h.actions[id];
        }
      }
    }
  }

  lemma {:induction false} NumberOneCallsSatisfy<A>(o: MenuOption<A>, next: int, P: A -> bool)
    requires CallSatisfies(o, P)
    ensures ActionsSatisfy(NumberOne(o, next).actions, P)
    decreases o
  {
    var m := NumberOne(o, next).actions;
    if IsLeafAction(o.action) {
      assert m == map[next := o.action];
    } else if NonStringIterable(o.action) {
      assert CallsSatisfy(o.action.items, P);
      AddIdsCallsSatisfy(o.action.items, next, P);
      assert m == AddIds(o.action.items, next).actions;
    } else {
      assert m == map[];
    }
  }

  lemma {:induction false} CallsSatisfyAppend<A>(a: seq<MenuOption<A>>, b: seq<MenuOption<A>>, P: A -> bool)
    requires CallsSatisfy(a, P) && CallsSatisfy(b, P)
    ensures CallsSatisfy(a + b, P)
    decreases a
  {
    if a == [] {
      assert a + b == b;
    } else {
      assert (a + b)[0] == a[0];
      assert (a + b)[1..] == a[1..] + b;
      CallsSatisfyAppend(a[1..], b, P);
    }
  }

  /** The Quit option adds no callable, so start-up registers only
      callables the caller supplied. */
  lemma SetupCallsSatisfy<A>(options: seq<MenuOption<A>>, P: A -> bool)
    requires CallsSatisfy(options, P)
    ensures ActionsSatisfy(Setup(options).actions, P)
  {
    var q := [QuitOption<A>()];
    assert q[1..] == [];
    assert CallsSatisfy(q, P);
    CallsSatisfyAppend(options, q, P);
    AddIdsCallsSatisfy(options + q, FirstId, P);
  }
}
