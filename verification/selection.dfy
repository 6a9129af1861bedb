/** The selection state machine of `PrjTray` (prj_pystray.py:25-154) and the
    start-up sequence of the main script (prj_pystray.py:222-237), as pure
    functions over a `Tray` value.  The log file is the sequence of lines
    appended to it; the clock is a timestamp string passed in. */
module Selection {
  import opened Wrappers
  import opened OrderedMap
  import opened Identifiers
  import opened IconFiles
  import opened Catalog
  import opened TrayMenu

  /** `project` is the current selection, `fallback` the image cached at
      start-up, `icon` the image on show, `log` the lines written to the log
      file, `running` whether the tray's event loop still runs. */
  datatype Tray = Tray(
    catalog: Catalog,
    current: SelectionKey,
    fallback: string,
    icon: string,
    log: seq<string>,
    running: bool)

  const ChangedMarker: string := " -- changed <"
  const RecordClose: string := ">"

  /** Reads the info back from a log line stamped `ts`. */
  function RecordInfo(ts: string, line: string): Option<string> {
    var head := ts + ChangedMarker;
    if |head| + |RecordClose| <= |line| && line[..|head|] == head
      && line[|line| - |RecordClose|..] == RecordClose
    then Some(line[|head|..|line| - |RecordClose|])
    else None
  }

  /** The line `log_change` prints and appends (prj_pystray.py:137-146),
      without its newline: `<ts> -- changed <info>`. */
  function Record(ts: string, info: string): (line: string)
    ensures RecordInfo(ts, line) == Some(info)
    ensures |line| == |ts| + |ChangedMarker| + |info| + |RecordClose|
  {
    var line := ts + ChangedMarker + info + RecordClose;
    assert line[..|ts + ChangedMarker|] == ts + ChangedMarker;
    assert line[|ts + ChangedMarker|..|line| - |RecordClose|] == info;
    line
  }

  /** The three ways the program quits, with the reason each one logs. */
  datatype QuitReason = MenuExitReason | SigTerm | SigInt {
    function Text(): string {
      match this
      case MenuExitReason => MenuExit
      case SigTerm => "SIGTERM"
      case SigInt => "SIGINT"
    }
  }

  /** The info `quit` logs: `QUIT (<reason>)`. */
  function QuitInfo(reason: string): string {
    "QUIT (" + reason + ")"
  }

  /** The default selection of the main script (prj_pystray.py:228-233):
      for a first project with more than one work-package, that project's
      id with its first work-package; otherwise the first project's NAME as
      a bare key.  `None` for an empty catalog, where `next` raises. */
  function DefaultKey(c: Catalog): (r: Option<SelectionKey>)
    ensures r.None? <==> c == []
    ensures c != [] ==> (r.value.ProjectWP? <==> |c[0].1.workpackages| > 1)
    ensures c != [] && |c[0].1.workpackages| > 1 ==>
      r.value == ProjectWP(c[0].1.id, c[0].1.workpackages[0].0)
    ensures c != [] && |c[0].1.workpackages| <= 1 ==> r.value == ProjectOnly(c[0].1.name)
    ensures r == IntendedDefaultKey(c) <==>
      c == [] || |c[0].1.workpackages| > 1 || c[0].1.name == c[0].1.id
  {
    if c == [] then None
    else
      var first := c[0].1;
      if |first.workpackages| > 1 then Some(ProjectWP(first.id, first.workpackages[0].0))
      else Some(ProjectOnly(first.name))
  }

  /** The default with the first project's ID as the bare key. */
  function IntendedDefaultKey(c: Catalog): Option<SelectionKey> {
    if c == [] then None
    else
      var first := c[0].1;
      if |first.workpackages| > 1 then Some(ProjectWP(first.id, first.workpackages[0].0))
      else Some(ProjectOnly(first.id))
  }

  /** The corrected default always names an entry of the menu. */
  lemma IntendedDefaultSelectable(c: Catalog)
    requires WellFormed(c)
    ensures IntendedDefaultKey(c).None? <==> c == []
    ensures IntendedDefaultKey(c).Some? ==> Selectable(c, IntendedDefaultKey(c).value)
  {
    if c != [] {
      assert Keys(c)[0] == c[0].0;
      assert Get(c, c[0].0) == Some(c[0].1);
      if |c[0].1.workpackages| > 1 {
        assert Keys(c[0].1.workpackages)[0] == c[0].1.workpackages[0].0;
      }
    }
  }

  /** The default as written names a project only if the first project's
      display name happens to be a project id as well; a multi-work-package
      first project is always fine. */
  lemma DefaultKeyResolves(c: Catalog)
    requires WellFormed(c)
    ensures DefaultKey(c).None? <==> c == []
    ensures c != [] && |c[0].1.workpackages| > 1 ==> Selectable(c, DefaultKey(c).value)
    ensures c != [] && |c[0].1.workpackages| <= 1 ==>
      (DefaultKey(c).value.pid in Keys(c) <==> c[0].1.name in Keys(c))
    ensures c != [] && c[0].1.name == c[0].1.id ==> DefaultKey(c) == IntendedDefaultKey(c)
  {
    IntendedDefaultSelectable(c);
  }

  /** The project `get_project` finds for a key; only keys whose project
      exists are used. */
  function KeyProject(c: Catalog, key: SelectionKey): (p: Project)
    requires key.pid in Keys(c)
    ensures Get(c, key.pid) == Some(p)
  {
    GetProject(c, key).value.0
  }

  /** The image `change_project` shows (prj_pystray.py:123-131): the
      work-package's icon, else the project's icon, else the cached
      start-up image. */
  function DisplayIcon(c: Catalog, key: SelectionKey, fallback: string): (r: string)
    requires key.pid in Keys(c)
    ensures var p := KeyProject(c, key); var own := OwnIcon(p, key.Wp());
      && (own.Some? ==> r == own.value)
      && (own.None? && p.icon.Some? ==> r == p.icon.value)
      && (own.None? && p.icon.None? ==> r == fallback)
  {
    WpIcon(KeyProject(c, key), key.Wp()).GetOr(fallback)
  }

  /** The info `change_project` logs: `get_id` of the key's work-package. */
  function LogLabel(c: Catalog, key: SelectionKey): string
    requires key.pid in Keys(c)
  {
    Label(KeyProject(c, key), key.Wp())
  }

  /** `change_project` (prj_pystray.py:116-134): the key becomes current, the
      resolved image is shown, and exactly one line is logged. */
  function ChangeProject(t: Tray, key: SelectionKey, ts: string): (r: Tray)
    requires key.pid in Keys(t.catalog)
    ensures r.current == key
    ensures r.icon == DisplayIcon(t.catalog, key, t.fallback)
    ensures |r.log| == |t.log| + 1 && r.log[..|t.log|] == t.log
    ensures RecordInfo(ts, r.log[|t.log|]) == Some(LogLabel(t.catalog, key))
    ensures r.catalog == t.catalog && r.fallback == t.fallback && r.running == t.running
  {
    var r := t.(current := key,
                icon := DisplayIcon(t.catalog, key, t.fallback),
                log := t.log + [Record(ts, LogLabel(t.catalog, key))]);
    assert r.log[..|t.log|] == t.log;
    r
  }

  /** `is_selected(key)`: whether the entry for `key` shows as checked. */
  function IsSelected(t: Tray, key: SelectionKey): bool {
    key == t.current
  }

  /** `on_click(key)` (prj_pystray.py:105-114): clicking the current
      selection changes nothing and logs nothing; any other key is switched
      to, logging one line.  Either way the clicked key alone is selected. */
  function OnClick(t: Tray, key: SelectionKey, ts: string): (r: Tray)
    requires key != t.current ==> key.pid in Keys(t.catalog)
    ensures key == t.current ==> r == t
    ensures IsSelected(r, key) && forall k :: IsSelected(r, k) ==> k == key
    ensures |r.log| == |t.log| + (if key == t.current then 0 else 1)
    ensures r.log[..|t.log|] == t.log
    ensures key != t.current ==>
      RecordInfo(ts, r.log[|t.log|]) == Some(LogLabel(t.catalog, key))
      && r.icon == DisplayIcon(t.catalog, key, t.fallback)
    ensures r.catalog == t.catalog && r.fallback == t.fallback && r.running == t.running
  {
    if t.current == key then t else ChangeProject(t, key, ts)
  }

  /** `quit(reason)` (prj_pystray.py:149-154): one `QUIT (<reason>)` line is
      logged and the event loop stops; the selection and image stay. */
  function Quit(t: Tray, reason: string, ts: string): (r: Tray)
    ensures !r.running
    ensures |r.log| == |t.log| + 1 && r.log[..|t.log|] == t.log
    ensures RecordInfo(ts, r.log[|t.log|]) == Some(QuitInfo(reason))
    ensures r.catalog == t.catalog && r.current == t.current && r.icon == t.icon
    ensures r.fallback == t.fallback
  {
    var r := t.(log := t.log + [Record(ts, QuitInfo(reason))], running := false);
    assert r.log[..|t.log|] == t.log;
    r
  }

  /** Clicking a menu entry: a radio entry runs `on_click`, the Quit entry
      runs `quit`; a submenu or separator does nothing. */
  function Activate(t: Tray, e: Entry, ts: string): Tray
    requires e.Radio? && e.key != t.current ==> e.key.pid in Keys(t.catalog)
  {
    match e
    case Radio(_, k) => OnClick(t, k, ts)
    case Action(_, reason) => Quit(t, reason, ts)
    case _ => t
  }

  /** The menu's Quit entry logs `QUIT (Menu Exit)` and stops the loop. */
  lemma MenuQuitLogsMenuExit(t: Tray, ts: string)
    ensures var m := MakeMenu(t.catalog); var r := Activate(t, m[|m| - 1], ts);
      !r.running && |r.log| == |t.log| + 1
      && RecordInfo(ts, r.log[|t.log|]) == Some(QuitInfo(MenuExitReason.Text()))
  {
  }

  datatype StartupError = NoProjects | UnknownProject(pid: string) | NoStartupIcon

  /** `PrjTray.__init__` (prj_pystray.py:26-41): look the default up
      (a `KeyError` for an unknown project id), open its image as the cached
      fallback (`Image.open(None)` raises when no icon resolves), then
      re-select the default, which logs the start-up line. */
  function Startup(c: Catalog, default: SelectionKey, ts: string): (r: Result<Tray, StartupError>)
    ensures r.Success? <==> default.pid in Keys(c) && WpIcon(KeyProject(c, default), default.Wp()).Some?
    ensures default.pid !in Keys(c) ==> r == Failure(UnknownProject(default.pid))
    ensures default.pid in Keys(c) && WpIcon(KeyProject(c, default), default.Wp()).None? ==>
      r == Failure(NoStartupIcon)
    ensures r.Success? ==>
      && r.value.catalog == c && r.value.current == default && r.value.running
      && r.value.log == [Record(ts, LogLabel(c, default))]
      && r.value.fallback == WpIcon(KeyProject(c, default), default.Wp()).value
      && r.value.icon == r.value.fallback
  {
    if default.pid !in Keys(c) then Failure(UnknownProject(default.pid))
    else match WpIcon(KeyProject(c, default), default.Wp())
      case None => Failure(NoStartupIcon)
      case Some(image) =>
        var t := Tray(c, default, image, image, [], true);
        var r := ChangeProject(t, default, ts);
        assert r.log == [Record(ts, LogLabel(c, default))];
        Success(r)
  }

  /** The main script: build the catalog, compute the default, start the tray. */
  function Launch(conf: Config, existing: set<string>, ts: string): (r: Result<Tray, StartupError>)
    ensures var c := BuildCatalog(conf, existing);
      && (r == Failure(NoProjects) <==> c == [])
      && (c != [] && DefaultKey(c).value.pid !in Keys(c) ==>
            r == Failure(UnknownProject(DefaultKey(c).value.pid)))
      && (c != [] && DefaultKey(c).value.pid in Keys(c) ==>
            var d := DefaultKey(c).value;
            && (r.Success? <==> WpIcon(KeyProject(c, d), d.Wp()).Some?)
            && (WpIcon(KeyProject(c, d), d.Wp()).None? ==> r == Failure(NoStartupIcon)))
      && (r.Success? ==>
            && r.value.catalog == c && Some(r.value.current) == DefaultKey(c)
            && r.value.running && |r.value.log| == 1)
  {
    var c := BuildCatalog(conf, existing);
    match DefaultKey(c)
    case None => Failure(NoProjects)
    case Some(d) => Startup(c, d, ts)
  }

  /** The same start-up with the default corrected to the project id. */
  function IntendedLaunch(conf: Config, existing: set<string>, ts: string): Result<Tray, StartupError> {
    var c := BuildCatalog(conf, existing);
    match IntendedDefaultKey(c)
    case None => Failure(NoProjects)
    case Some(d) => Startup(c, d, ts)
  }

  /** Invariant of a running tray: the catalog is well formed and records
      only existing icon files, the selection names a project, and the image
      on show is the one the selection resolves to. */
  predicate Inv(t: Tray, existing: set<string>) {
    && WellFormed(t.catalog)
    && IconsExist(t.catalog, existing)
    && t.current.pid in Keys(t.catalog)
    && t.fallback in existing
    && t.icon == DisplayIcon(t.catalog, t.current, t.fallback)
  }

  /** The tray only ever shows an image file that exists. */
  lemma InvIconExists(t: Tray, existing: set<string>)
    requires Inv(t, existing)
    ensures t.icon in existing
  {
    var i := FirstIndex(t.catalog, t.current.pid);
    assert Get(t.catalog, t.current.pid) == Some(t.catalog[i].1);
    assert ProjectIconsExist(t.catalog[i].1, existing);
    ResolvedIconExists(KeyProject(t.catalog, t.current), t.current.Wp(), existing);
  }

  /** A successful start-up yields a tray satisfying the invariant, with
      exactly one log line. */
  lemma LaunchEstablishesInv(conf: Config, existing: set<string>, ts: string)
    ensures var r := Launch(conf, existing, ts);
      r.Success? ==> Inv(r.value, existing) && |r.value.log| == 1
  {
    var c := BuildCatalog(conf, existing);
    BuildCatalogSpec(conf, existing);
    var r := Launch(conf, existing, ts);
    if r.Success? {
      var d := DefaultKey(c).value;
      var i := FirstIndex(c, d.pid);
      assert Get(c, d.pid) == Some(c[i].1);
      assert ProjectIconsExist(c[i].1, existing);
      ResolvedIconExists(KeyProject(c, d), d.Wp(), existing);
    }
  }

  /** Start-up as written fails exactly when the catalog is empty, the
      default names no project, or no icon resolves for it.  A first
      project with at most one work-package is looked up by its NAME. */
  lemma LaunchOutcome(conf: Config, existing: set<string>, ts: string)
    ensures var c := BuildCatalog(conf, existing); var r := Launch(conf, existing, ts);
      && (c == [] <==> r == Failure(NoProjects))
      && (c != [] && |c[0].1.workpackages| <= 1 && c[0].1.name !in Keys(c) ==>
            r == Failure(UnknownProject(c[0].1.name)))
  {
    var c := BuildCatalog(conf, existing);
    BuildCatalogSpec(conf, existing);
    DefaultKeyResolves(c);
  }

  /** Clicking keeps the invariant. */
  lemma OnClickPreservesInv(t: Tray, key: SelectionKey, ts: string, existing: set<string>)
    requires Inv(t, existing)
    requires key.pid in Keys(t.catalog)
    ensures Inv(OnClick(t, key, ts), existing)
  {
  }

  /** So do the three quit paths. */
  lemma QuitPreservesInv(t: Tray, reason: QuitReason, ts: string, existing: set<string>)
    requires Inv(t, existing)
    ensures Inv(Quit(t, reason.Text(), ts), existing)
  {
  }

  /** Exactly one radio entry of the menu shows as checked. */
  predicate ExactlyOneChecked(t: Tray) {
    var leaves := Leaves(MakeMenu(t.catalog));
    exists i :: 0 <= i < |leaves| && IsSelected(t, leaves[i])
      && forall j :: 0 <= j < |leaves| && IsSelected(t, leaves[j]) ==> j == i
  }

  /** Exactly one entry is checked when the selection is one the menu
      offers; otherwise none is. */
  lemma CheckedEntries(t: Tray)
    requires WellFormed(t.catalog)
    ensures ExactlyOneChecked(t) <==> Selectable(t.catalog, t.current)
    ensures !Selectable(t.catalog, t.current) ==>
      forall k :: k in Leaves(MakeMenu(t.catalog)) ==> !IsSelected(t, k)
  {
    var leaves := Leaves(MakeMenu(t.catalog));
    MenuOffersExactlySelectable(t.catalog, t.current);
    MenuKeysDistinct(t.catalog);
    if Selectable(t.catalog, t.current) {
      var i :| 0 <= i < |leaves| && leaves[i] == t.current;
      assert forall j :: 0 <= j < |leaves| && IsSelected(t, leaves[j]) ==> j == i;
    }
  }

  /** After a click on any radio entry of the menu, exactly that entry is
      checked. */
  lemma ClickKeepsOneChecked(t: Tray, key: SelectionKey, ts: string)
    requires WellFormed(t.catalog)
    requires key in Leaves(MakeMenu(t.catalog))
    ensures key.pid in Keys(t.catalog)
    ensures ExactlyOneChecked(OnClick(t, key, ts))
  {
    MenuOffersExactlySelectable(t.catalog, key);
    CheckedEntries(OnClick(t, key, ts));
  }

  /** With the corrected default, start-up leaves exactly one entry checked. */
  lemma IntendedLaunchChecked(conf: Config, existing: set<string>, ts: string)
    ensures var r := IntendedLaunch(conf, existing, ts);
      r.Success? ==> ExactlyOneChecked(r.value)
  {
    var c := BuildCatalog(conf, existing);
    BuildCatalogSpec(conf, existing);
    IntendedDefaultSelectable(c);
    var r := IntendedLaunch(conf, existing, ts);
    if r.Success? {
      CheckedEntries(r.value);
    }
  }

  /** With the corrected default, start-up can only fail for want of
      projects or of an icon, never on an unknown project id. */
  lemma IntendedLaunchResolves(conf: Config, existing: set<string>, ts: string)
    ensures var r := IntendedLaunch(conf, existing, ts);
      r.Failure? ==> r.error == NoProjects || r.error == NoStartupIcon
  {
    var c := BuildCatalog(conf, existing);
    BuildCatalogSpec(conf, existing);
    IntendedDefaultSelectable(c);
  }
}
