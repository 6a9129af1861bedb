/** The project catalog of the tray (prj_pystray.py:156-185, 222-225):
    projects keyed by id in configuration order, each holding its
    work-packages keyed by id in configuration order, and the two queries a
    selection needs, the icon to show and the label to log. */
module Catalog {
  import opened Wrappers
  import opened OrderedMap
  import opened Identifiers
  import opened IconFiles

  /** The value stored per work-package: `(wp_name, wp_icon)`. */
  datatype WorkPackage = WorkPackage(name: string, icon: Option<string>)

  datatype Project = Project(
    id: string,
    name: string,
    icon: Option<string>,
    workpackages: OMap<string, WorkPackage>)

  /** The `projects` OrderedDict: project id to project. */
  type Catalog = OMap<string, Project>

  /** The loaded JSON object, in its iteration order: project identifier to
      the list of work-package identifiers. */
  type Config = seq<(string, seq<string>)>

  /** A selection: a bare project key, or a `(project id, wp id)` tuple. */
  datatype SelectionKey = ProjectOnly(pid: string) | ProjectWP(pid: string, wid: string) {
    /** The work-package part `get_project` hands on (`None` for a bare key). */
    function Wp(): Option<string> {
      match this
      case ProjectOnly(_) => None
      case ProjectWP(_, w) => Some(w)
    }
  }

  /** The assignment `workpackages[wp_id] = (wp_name, wp_icon)` made for
      one work-package identifier. */
  function WorkPackageEntry(wp: string, existing: set<string>): (string, WorkPackage) {
    var name := GetIdName(wp).1;
    (GetIdName(wp).0, WorkPackage(name, ImagePath(name, existing)))
  }

  function WorkPackagePairs(wps: seq<string>, existing: set<string>): (ps: OMap<string, WorkPackage>)
    ensures |ps| == |wps|
    ensures forall i :: 0 <= i < |wps| ==>
      ps[i] == WorkPackageEntry(wps[i], existing) && ps[i].0 == GetIdName(wps[i]).0
  {
    seq(|wps|, i requires 0 <= i < |wps| => WorkPackageEntry(wps[i], existing))
  }

  /** `Project(identifier, workpackages)` (prj_pystray.py:157-169). */
  function MakeProject(identifier: string, wps: seq<string>, existing: set<string>): Project {
    var (id, name) := GetIdName(identifier);
    Project(id, name, ImagePath(name, existing), FromPairs(WorkPackagePairs(wps, existing)))
  }

  /** A project's work-packages have unique ids, at most one per configured
      identifier, and every icon it records names an existing file. */
  lemma MakeProjectSpec(identifier: string, wps: seq<string>, existing: set<string>)
    ensures var p := MakeProject(identifier, wps, existing);
      && Distinct(Keys(p.workpackages))
      && |p.workpackages| <= |wps|
      && ProjectIconsExist(p, existing)
  {
    var ps := WorkPackagePairs(wps, existing);
    var wpmap := FromPairs(ps);
    DistinctKeysBound(wpmap, ps);
    forall i | 0 <= i < |wpmap| ensures WpIconExists(wpmap[i].1, existing) {
      assert wpmap[i] in ps;
    }
  }

  predicate WpIconExists(w: WorkPackage, existing: set<string>) {
    w.icon.Some? ==> w.icon.value in existing
  }

  /** A dictionary has no more slots than the pairs it was built from. */
  lemma DistinctKeysBound<K(!new), V>(r: OMap<K, V>, ps: OMap<K, V>)
    requires r == FromPairs(ps)
    ensures |r| <= |ps|
  {
    if |r| > 0 {
      // the first-occurrence positions of the keys are strictly increasing,
      // so the last key first occurs at position |r| - 1 or later
      FromPairsFirstOccurrenceOrder(ps);
      IncreasingAtLeastIndex(ps, r, |r| - 1);
    }
  }

  lemma {:induction false} IncreasingAtLeastIndex<K(!new), V>(ps: OMap<K, V>, r: OMap<K, V>, i: nat)
    requires r == FromPairs(ps) && i < |r|
    requires forall a, b :: 0 <= a < b < |r| ==> FirstIndex(ps, r[a].0) < FirstIndex(ps, r[b].0)
    ensures i <= FirstIndex(ps, Keys(r)[i])
    decreases i
  {
    if i > 0 {
      IncreasingAtLeastIndex(ps, r, i - 1);
      assert FirstIndex(ps, r[i - 1].0) < FirstIndex(ps, r[i].0);
    }
  }

  function ProjectPairs(conf: Config, existing: set<string>): (ps: OMap<string, Project>)
    ensures |ps| == |conf|
    ensures forall i :: 0 <= i < |conf| ==>
      ps[i].1 == MakeProject(conf[i].0, conf[i].1, existing) && ps[i].0 == ps[i].1.id
      && ps[i].0 == GetIdName(conf[i].0).0
  {
    seq(|conf|, i requires 0 <= i < |conf| =>
      var p := MakeProject(conf[i].0, conf[i].1, existing); (p.id, p))
  }

  /** Invariants of every catalog the program builds: unique project ids,
      every project stored under its own id, unique work-package ids. */
  predicate WellFormed(c: Catalog) {
    && Distinct(Keys(c))
    && (forall i :: 0 <= i < |c| ==> c[i].1.id == c[i].0)
    && (forall i :: 0 <= i < |c| ==> Distinct(Keys(c[i].1.workpackages)))
  }

  /** Every icon path recorded in the catalog names an existing file. */
  predicate IconsExist(c: Catalog, existing: set<string>) {
    forall i :: 0 <= i < |c| ==> ProjectIconsExist(c[i].1, existing)
  }

  predicate ProjectIconsExist(p: Project, existing: set<string>) {
    && (p.icon.Some? ==> p.icon.value in existing)
    && (forall j :: 0 <= j < |p.workpackages| ==> WpIconExists(p.workpackages[j].1, existing))
  }

  /** The catalog loop `projects[p.id] = p` (prj_pystray.py:222-225). */
  function BuildCatalog(conf: Config, existing: set<string>): Catalog {
    FromPairs(ProjectPairs(conf, existing))
  }

  /** The built catalog is well formed, records only existing icon files,
      and has at most one project per configuration entry. */
  lemma BuildCatalogSpec(conf: Config, existing: set<string>)
    ensures var c := BuildCatalog(conf, existing);
      WellFormed(c) && IconsExist(c, existing) && |c| <= |conf|
  {
    var ps := ProjectPairs(conf, existing);
    var c := FromPairs(ps);
    DistinctKeysBound(c, ps);
    forall i | 0 <= i < |c| ensures StoredProjectOk(c[i], existing) {
      CatalogSlotOk(conf, existing, c[i]);
    }
  }

  predicate StoredProjectOk(e: (string, Project), existing: set<string>) {
    e.1.id == e.0 && ProjectIconsExist(e.1, existing) && Distinct(Keys(e.1.workpackages))
  }

  lemma CatalogSlotOk(conf: Config, existing: set<string>, e: (string, Project))
    requires e in ProjectPairs(conf, existing)
    ensures StoredProjectOk(e, existing)
  {
    var ps := ProjectPairs(conf, existing);
    var j :| 0 <= j < |ps| && ps[j] == e;
    MakeProjectSpec(conf[j].0, conf[j].1, existing);
  }

  /** The catalog holds exactly the ids of the configured project
      identifiers. */
  lemma BuildCatalogIds(conf: Config, existing: set<string>, pid: string)
    ensures pid in Keys(BuildCatalog(conf, existing)) <==>
      exists i :: 0 <= i < |conf| && GetIdName(conf[i].0).0 == pid
  {
    var ps := ProjectPairs(conf, existing);
    if pid in Keys(ps) {
      var i :| 0 <= i < |ps| && Keys(ps)[i] == pid;
      assert GetIdName(conf[i].0).0 == pid;
    }
    if exists i :: 0 <= i < |conf| && GetIdName(conf[i].0).0 == pid {
      var i :| 0 <= i < |conf| && GetIdName(conf[i].0).0 == pid;
      assert Keys(ps)[i] == pid;
    }
  }

  /** Entry `i` is the last configuration entry for project id `pid`, and
      `p` is the project built from it. */
  predicate IsLastConfigEntry(conf: Config, existing: set<string>, pid: string, p: Project, i: int) {
    && 0 <= i < |conf|
    && GetIdName(conf[i].0).0 == pid
    && p == MakeProject(conf[i].0, conf[i].1, existing)
    && forall j :: i < j < |conf| ==> GetIdName(conf[j].0).0 != pid
  }

  lemma IsLastConfigEntryAt(conf: Config, existing: set<string>, pid: string, p: Project, i: int)
    requires 0 <= i < |conf|
    ensures var ps := ProjectPairs(conf, existing);
      IsLastConfigEntry(conf, existing, pid, p, i) <==> ps[i] == (pid, p) && NoLaterWrite(ps, pid, i)
  {
    var ps := ProjectPairs(conf, existing);
    assert forall j :: 0 <= j < |ps| ==> ps[j].0 == GetIdName(conf[j].0).0;
  }

  /** Later duplicate project ids win: the catalog holds, under each id, the
      project built from the LAST configuration entry with that id. */
  lemma CatalogLastEntryWins(conf: Config, existing: set<string>, pid: string, p: Project)
    ensures Get(BuildCatalog(conf, existing), pid) == Some(p) <==>
      exists i :: IsLastConfigEntry(conf, existing, pid, p, i)
  {
    var ps := ProjectPairs(conf, existing);
    FromPairsGet(ps, pid, p);
    if LastWrite(ps, pid, p) {
      var i :| 0 <= i < |ps| && ps[i] == (pid, p) && NoLaterWrite(ps, pid, i);
      IsLastConfigEntryAt(conf, existing, pid, p, i);
    }
    if exists i :: IsLastConfigEntry(conf, existing, pid, p, i) {
      var i :| IsLastConfigEntry(conf, existing, pid, p, i);
      IsLastConfigEntryAt(conf, existing, pid, p, i);
    }
  }

  /** A project keeps the slot of the FIRST entry with its id: catalog order
      is the order in which ids first appear in the configuration. */
  lemma CatalogFirstOccurrenceOrder(conf: Config, existing: set<string>)
    ensures var c := BuildCatalog(conf, existing); var ps := ProjectPairs(conf, existing);
      forall a, b :: 0 <= a < b < |c| ==> FirstIndex(ps, c[a].0) < FirstIndex(ps, c[b].0)
  {
    var ps := ProjectPairs(conf, existing);
    var c := FromPairs(ps);
    forall a, b | 0 <= a < b < |c| ensures FirstIndex(ps, c[a].0) < FirstIndex(ps, c[b].0) {
      FromPairsOrderAt(ps, a, b);
    }
  }

  /** Identifier `i` is the last one with work-package id `wid`, and `w`
      is the entry built from it. */
  predicate IsLastWpEntry(wps: seq<string>, existing: set<string>, wid: string, w: WorkPackage, i: int) {
    && 0 <= i < |wps|
    && WorkPackageEntry(wps[i], existing) == (wid, w)
    && forall j :: i < j < |wps| ==> GetIdName(wps[j]).0 != wid
  }

  lemma IsLastWpEntryAt(wps: seq<string>, existing: set<string>, wid: string, w: WorkPackage, i: int)
    requires 0 <= i < |wps|
    ensures var ps := WorkPackagePairs(wps, existing);
      IsLastWpEntry(wps, existing, wid, w, i) <==> ps[i] == (wid, w) && NoLaterWrite(ps, wid, i)
  {
    var ps := WorkPackagePairs(wps, existing);
    assert forall j :: 0 <= j < |ps| ==> ps[j].0 == GetIdName(wps[j]).0;
  }

  /** Work-packages behave the same way within a project: the last
      identifier with a given wp id supplies its name and icon. */
  lemma WorkPackageLastEntryWins(identifier: string, wps: seq<string>, existing: set<string>, wid: string, w: WorkPackage)
    ensures Get(MakeProject(identifier, wps, existing).workpackages, wid) == Some(w) <==>
      exists i :: IsLastWpEntry(wps, existing, wid, w, i)
  {
    var ps := WorkPackagePairs(wps, existing);
    FromPairsGet(ps, wid, w);
    if LastWrite(ps, wid, w) {
      var i :| 0 <= i < |ps| && ps[i] == (wid, w) && NoLaterWrite(ps, wid, i);
      IsLastWpEntryAt(wps, existing, wid, w, i);
    }
    if exists i :: IsLastWpEntry(wps, existing, wid, w, i) {
      var i :| IsLastWpEntry(wps, existing, wid, w, i);
      IsLastWpEntryAt(wps, existing, wid, w, i);
    }
  }

  /** `get_project`: the project a key names and the work-package part;
      `None` stands for the `KeyError` of an unknown project id. */
  function GetProject(c: Catalog, key: SelectionKey): (r: Option<(Project, Option<string>)>)
    ensures r.Some? <==> key.pid in Keys(c)
    ensures r.Some? ==> Get(c, key.pid) == Some(r.value.0) && r.value.1 == key.Wp()
    ensures WellFormed(c) && r.Some? ==> r.value.0.id == key.pid
  {
    match Get(c, key.pid)
    case None => None
    case Some(p) => Some((p, key.Wp()))
  }

  /** On a built catalog, `get_project` yields the project of the LAST
      configuration entry with the key's id, and fails exactly when no
      entry has that id. */
  lemma GetProjectBuilt(conf: Config, existing: set<string>, key: SelectionKey, p: Project)
    ensures var r := GetProject(BuildCatalog(conf, existing), key);
      && (r == Some((p, key.Wp())) <==> exists i :: IsLastConfigEntry(conf, existing, key.pid, p, i))
      && (r.None? <==> forall i :: 0 <= i < |conf| ==> GetIdName(conf[i].0).0 != key.pid)
  {
    CatalogLastEntryWins(conf, existing, key.pid, p);
    BuildCatalogIds(conf, existing, key.pid);
  }

  /** The icon a work-package has of its own, if any. */
  function OwnIcon(p: Project, wp: Option<string>): Option<string> {
    if wp.None? then None
    else match Get(p.workpackages, wp.value)
      case None => None
      case Some(w) => w.icon
  }

  /** `Project.get_wp_icon` (prj_pystray.py:171-176): the work-package's own
      icon wins; otherwise, for an absent key, a key without icon or no key
      at all, the project's icon. */
  function WpIcon(p: Project, wp: Option<string>): (r: Option<string>)
    ensures OwnIcon(p, wp).Some? ==> r == OwnIcon(p, wp)
    ensures OwnIcon(p, wp).None? ==> r == p.icon
    ensures r.None? <==> OwnIcon(p, wp).None? && p.icon.None?
  {
    if wp.Some? && wp.value in Keys(p.workpackages) then
      var icon := Get(p.workpackages, wp.value).value.icon;
      if icon.None? then p.icon else icon
    else
      p.icon
  }

  /** A resolved icon always names an existing file. */
  lemma ResolvedIconExists(p: Project, wp: Option<string>, existing: set<string>)
    requires ProjectIconsExist(p, existing)
    ensures WpIcon(p, wp).Some? ==> WpIcon(p, wp).value in existing
  {
    if wp.Some? && wp.value in Keys(p.workpackages) {
      var j := FirstIndex(p.workpackages, wp.value);
      assert Get(p.workpackages, wp.value) == Some(p.workpackages[j].1);
      assert WpIconExists(p.workpackages[j].1, existing);
    }
  }

  const LabelSeparator: string := ":"

  /** The work-package a log label stands for: the explicit one, else the
      first work-package as the implied default, else none. */
  function EffectiveWp(p: Project, wp: Option<string>): Option<string> {
    if wp.Some? then wp
    else if p.workpackages == [] then None
    else Some(p.workpackages[0].0)
  }

  /** Reads back the work-package part of a label written for project `id`. */
  function LabelWp(id: string, text: string): Option<string>
    requires |id| <= |text| && text[..|id|] == id
  {
    var rest := text[|id|..];
    if |LabelSeparator| <= |rest| && rest[..|LabelSeparator|] == LabelSeparator
    then Some(rest[|LabelSeparator|..])
    else None
  }

  /** `Project.get_id` (prj_pystray.py:178-185): `id`, or `id:<wp>` naming
      the effective work-package, which can always be read back. */
  function Label(p: Project, wp: Option<string>): (r: string)
    ensures |p.id| <= |r| && r[..|p.id|] == p.id
    ensures LabelWp(p.id, r) == EffectiveWp(p, wp)
    ensures r == p.id <==> wp.None? && p.workpackages == []
  {
    if wp.None? then
      if p.workpackages == [] then p.id
      else
        var r := p.id + LabelSeparator + p.workpackages[0].0;
        assert r[|p.id|..] == LabelSeparator + p.workpackages[0].0;
        r
    else
      var r := p.id + LabelSeparator + wp.value;
      assert r[|p.id|..] == LabelSeparator + wp.value;
      r
  }
}
