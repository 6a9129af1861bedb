/** The tray menu of the current version, `PrjTray.make_menu`
    (prj_pystray.py:43-85), as a tree of entries.  Each radio entry stands
    for a `MenuItem` whose click handler is `on_click(key)` and whose checked
    state is `is_selected(key)`; the handlers themselves live in `Selection`. */
module TrayMenu {
  import opened Wrappers
  import opened OrderedMap
  import opened Catalog

  datatype Entry =
    | Radio(text: string, key: SelectionKey)
    | Submenu(text: string, items: seq<Entry>)
    | Separator
    | Action(text: string, reason: string)

  const QuitText: string := "Quit"
  const MenuExit: string := "Menu Exit"

  /** The radio entries of a multi-work-package project, one per
      work-package in slot order, keyed `(id, wp_id)`. */
  function WpEntries(pid: string, wps: OMap<string, WorkPackage>): (es: seq<Entry>)
    ensures |es| == |wps|
    ensures forall j :: 0 <= j < |wps| ==> es[j] == Radio(wps[j].1.name, ProjectWP(pid, wps[j].0))
  {
    seq(|wps|, j requires 0 <= j < |wps| => Radio(wps[j].1.name, ProjectWP(pid, wps[j].0)))
  }

  /** The entry for one catalog slot: a submenu when the project has more
      than one work-package, otherwise a single radio entry keyed by the id. */
  function ProjectEntry(pid: string, p: Project): Entry {
    if |p.workpackages| > 1 then Submenu(p.name, WpEntries(pid, p.workpackages))
    else Radio(p.name, ProjectOnly(pid))
  }

  function ProjectEntries(c: Catalog): (es: seq<Entry>)
    ensures |es| == |c|
    ensures forall i :: 0 <= i < |c| ==> es[i] == ProjectEntry(c[i].0, c[i].1)
  {
    seq(|c|, i requires 0 <= i < |c| => ProjectEntry(c[i].0, c[i].1))
  }

  /** `make_menu`: the project entries in catalog order, then one separator
      and one Quit entry. */
  function MakeMenu(c: Catalog): (m: seq<Entry>)
    ensures |m| == |c| + 2
    ensures m[|c|] == Separator && m[|c| + 1] == Action(QuitText, MenuExit)
    ensures forall i :: 0 <= i < |c| ==>
      (m[i].Radio? || m[i].Submenu?) && m[i].text == c[i].1.name
      && (m[i].Submenu? <==> |c[i].1.workpackages| > 1)
  {
    ProjectEntries(c) + MenuTail
  }

  /** The keys of all radio entries, in menu order, submenus flattened. */
  function Leaves(es: seq<Entry>): seq<SelectionKey>
    decreases es
  {
    if es == [] then [] else EntryLeaves(es[0]) + Leaves(es[1..])
  }

  function EntryLeaves(e: Entry): seq<SelectionKey>
    decreases e
  {
    match e
    case Radio(_, k) => [k]
    case Submenu(_, items) => Leaves(items)
    case _ => []
  }

  lemma {:induction false} LeavesAppend(a: seq<Entry>, b: seq<Entry>)
    ensures Leaves(a + b) == Leaves(a) + Leaves(b)
    decreases |a|
  {
    if a == [] {
      assert a + b == b;
    } else {
      assert (a + b)[0] == a[0];
      assert (a + b)[1..] == a[1..] + b;
      LeavesAppend(a[1..], b);
    }
  }

  /** The keys one project contributes to the menu. */
  function ProjectKeys(pid: string, p: Project): (ks: seq<SelectionKey>)
    ensures forall k :: k in ks ==> k.pid == pid
  {
    if |p.workpackages| > 1 then
      seq(|p.workpackages|, j requires 0 <= j < |p.workpackages| => ProjectWP(pid, p.workpackages[j].0))
    else [ProjectOnly(pid)]
  }

  lemma {:induction false} RadioLeaves(pid: string, wps: OMap<string, WorkPackage>, n: nat)
    requires n <= |wps|
    ensures Leaves(WpEntries(pid, wps)[n..]) ==
      seq(|wps| - n, j requires 0 <= j < |wps| - n => ProjectWP(pid, wps[n + j].0))
    decreases |wps| - n
  {
    var es := WpEntries(pid, wps);
    if n < |wps| {
      RadioLeaves(pid, wps, n + 1);
      assert es[n..][1..] == es[n + 1..];
    }
  }

  lemma ProjectEntryLeaves(pid: string, p: Project)
    ensures EntryLeaves(ProjectEntry(pid, p)) == ProjectKeys(pid, p)
  {
    if |p.workpackages| > 1 {
      RadioLeaves(pid, p.workpackages, 0);
      assert WpEntries(pid, p.workpackages)[0..] == WpEntries(pid, p.workpackages);
    }
  }

  lemma {:induction false} ProjectEntriesLeaves(c: Catalog, k: SelectionKey)
    ensures k in Leaves(ProjectEntries(c)) <==>
      exists i :: 0 <= i < |c| && k in ProjectKeys(c[i].0, c[i].1)
    decreases |c|
  {
    if c != [] {
      var es := ProjectEntries(c);
      assert es[1..] == ProjectEntries(c[1..]);
      ProjectEntryLeaves(c[0].0, c[0].1);
      ProjectEntriesLeaves(c[1..], k);
      if exists i :: 0 <= i < |c| && k in ProjectKeys(c[i].0, c[i].1) {
        var i :| 0 <= i < |c| && k in ProjectKeys(c[i].0, c[i].1);
        if i > 0 {
          assert c[1..][i - 1] == c[i];
        }
      }
      if exists i :: 0 <= i < |c[1..]| && k in ProjectKeys(c[1..][i].0, c[1..][i].1) {
        var i :| 0 <= i < |c[1..]| && k in ProjectKeys(c[1..][i].0, c[1..][i].1);
        assert c[1..][i] == c[i + 1];
      }
    }
  }

  /** The key is offered by the menu of catalog `c`: the project exists and
      either has more than one work-package and the key names one of them,
      or has at most one and the key is the bare project id. */
  predicate Selectable(c: Catalog, k: SelectionKey) {
    match Get(c, k.pid)
    case None => false
    case Some(p) =>
      if |p.workpackages| > 1 then k.ProjectWP? && k.wid in Keys(p.workpackages)
      else k == ProjectOnly(k.pid)
  }

  const MenuTail: seq<Entry> := [Separator, Action(QuitText, MenuExit)]

  /** The entries after the projects hold no radio entry. */
  lemma MenuTailLeaves()
    ensures Leaves(MenuTail) == []
  {
    assert MenuTail[1..][1..] == [];
    assert Leaves(MenuTail[1..]) == EntryLeaves(MenuTail[1]) + Leaves(MenuTail[1..][1..]);
  }

  /** The menu's radio keys are those of its project entries. */
  lemma MenuLeaves(c: Catalog)
    ensures Leaves(MakeMenu(c)) == Leaves(ProjectEntries(c))
  {
    LeavesAppend(ProjectEntries(c), MenuTail);
    MenuTailLeaves();
    assert Leaves(ProjectEntries(c)) + [] == Leaves(ProjectEntries(c));
  }

  lemma ProjectKeySelectable(c: Catalog, i: int, k: SelectionKey)
    requires WellFormed(c) && 0 <= i < |c| && k in ProjectKeys(c[i].0, c[i].1)
    ensures Selectable(c, k)
  {
    assert Get(c, k.pid) == Some(c[i].1);
    if |c[i].1.workpackages| > 1 {
      var j :| 0 <= j < |c[i].1.workpackages| && k == ProjectWP(c[i].0, c[i].1.workpackages[j].0);
      assert Keys(c[i].1.workpackages)[j] == k.wid;
    }
  }

  lemma SelectableProjectKey(c: Catalog, k: SelectionKey) returns (i: int)
    requires WellFormed(c) && Selectable(c, k)
    ensures 0 <= i < |c| && k in ProjectKeys(c[i].0, c[i].1)
  {
    i := FirstIndex(c, k.pid);
    assert Get(c, k.pid) == Some(c[i].1);
    var p := c[i].1;
    if |p.workpackages| > 1 {
      var j := FirstIndex(p.workpackages, k.wid);
      assert ProjectKeys(c[i].0, p)[j] == k;
    } else {
      assert ProjectKeys(c[i].0, p)[0] == k;
    }
  }

  /** The radio entries of the menu are exactly the selectable keys. */
  lemma MenuOffersExactlySelectable(c: Catalog, k: SelectionKey)
    requires WellFormed(c)
    ensures k in Leaves(MakeMenu(c)) <==> Selectable(c, k)
  {
    MenuLeaves(c);
    ProjectEntriesLeaves(c, k);
    if k in Leaves(ProjectEntries(c)) {
      var i :| 0 <= i < |c| && k in ProjectKeys(c[i].0, c[i].1);
      ProjectKeySelectable(c, i, k);
    }
    if Selectable(c, k) {
      var i := SelectableProjectKey(c, k);
    }
  }

  /** No key is offered twice, so at most one radio entry shows as checked. */
  lemma MenuKeysDistinct(c: Catalog)
    requires WellFormed(c)
    ensures Distinct(Leaves(MakeMenu(c)))
  {
    MenuLeaves(c);
    ProjectEntriesDistinct(c);
  }

  lemma {:induction false} ProjectEntriesDistinct(c: Catalog)
    requires WellFormed(c)
    ensures Distinct(Leaves(ProjectEntries(c)))
    decreases |c|
  {
    if c != [] {
      var es := ProjectEntries(c);
      var rest := c[1..];
      assert es[1..] == ProjectEntries(rest);
      WellFormedTail(c);
      ProjectEntriesDistinct(rest);
      ProjectEntryLeaves(c[0].0, c[0].1);
      var a := ProjectKeys(c[0].0, c[0].1);
      var b := Leaves(ProjectEntries(rest));
      assert Distinct(a) by {
        assert Distinct(Keys(c[0].1.workpackages));
      }
      TailKeysAvoidHead(c);
      DistinctConcat(a, b);
    }
  }

  lemma WellFormedTail(c: Catalog)
    requires WellFormed(c) && c != []
    ensures WellFormed(c[1..])
  {
    var rest := c[1..];
    assert forall i :: 0 <= i < |rest| ==> rest[i] == c[i + 1];
    assert forall i :: 0 <= i < |rest| ==> Keys(rest)[i] == Keys(c)[i + 1];
  }

  /** No entry after the first project's offers a key of that project. */
  lemma TailKeysAvoidHead(c: Catalog)
    requires WellFormed(c) && c != []
    ensures forall k :: k in Leaves(ProjectEntries(c[1..])) ==> k !in ProjectKeys(c[0].0, c[0].1)
  {
    var rest := c[1..];
    forall k | k in Leaves(ProjectEntries(rest)) ensures k !in ProjectKeys(c[0].0, c[0].1) {
      ProjectEntriesLeaves(rest, k);
      var i :| 0 <= i < |rest| && k in ProjectKeys(rest[i].0, rest[i].1);
      assert Keys(c)[i + 1] == rest[i].0;
      ProjectEntryLeaves(c[0].0, c[0].1);
    }
  }

  lemma DistinctConcat<T>(a: seq<T>, b: seq<T>)
    requires Distinct(a) && Distinct(b)
    requires forall x :: x in a ==> x !in b
    ensures Distinct(a + b)
  {
    var s := a + b;
    forall i, j | 0 <= i < j < |s| ensures s[i] != s[j] {
      if i < |a| && j >= |a| {
        assert s[i] in a && s[j] in b;
      }
    }
  }
}
