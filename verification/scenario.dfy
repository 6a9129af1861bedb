/** A worked session of the current tray on a two-project configuration:
    `100-Alpha` with the work-packages `1-Setup` and `2-Build`, and
    `200-Beta` with none.  The catalog, the menu, the start-up line and the
    lines logged by two clicks and the Quit entry all follow from the
    definitions of the other modules. */
module Scenario {
  import opened Wrappers
  import opened OrderedMap
  import opened Identifiers
  import opened IconFiles
  import opened Catalog
  import opened TrayMenu
  import opened Selection

  const Conf: Config := [("100-Alpha", ["1-Setup", "2-Build"]), ("200-Beta", [])]

  /** Only the Alpha icon file exists. */
  const Icons: set<string> := {"myIcon_Alpha.ico"}
  const AlphaIcon: string := "myIcon_Alpha.ico"

  /** The two projects for a given set of existing files. */
  function Alpha(existing: set<string>): Project {
    Project("100", "Alpha", ImagePath("Alpha", existing),
      [("1", WorkPackage("Setup", ImagePath("Setup", existing))),
       ("2", WorkPackage("Build", ImagePath("Build", existing)))])
  }

  function Beta(existing: set<string>): Project {
    Project("200", "Beta", ImagePath("Beta", existing), [])
  }

  /** `get_id_name` of an identifier with exactly one dash. */
  lemma OneDash(a: string, b: string)
    requires Dash !in a && Dash !in b
    ensures GetIdName(a + [Dash] + b) == (a, b)
  {
    var parts := [a, b];
    assert parts[1..] == [b];
    assert Join(parts, Dash) == a + [Dash] + b;
    GetIdNameJoin(parts);
  }

  /** The identifiers of both configurations, each with one dash. */
  lemma ConfIds()
    ensures GetIdName("100-Alpha") == ("100", "Alpha")
    ensures GetIdName("200-Beta") == ("200", "Beta")
    ensures GetIdName("1-Setup") == ("1", "Setup")
    ensures GetIdName("2-Build") == ("2", "Build")
  {
    assert "100-Alpha" == "100" + [Dash] + "Alpha";
    assert "200-Beta" == "200" + [Dash] + "Beta";
    assert "1-Setup" == "1" + [Dash] + "Setup";
    assert "2-Build" == "2" + [Dash] + "Build";
    assert Dash !in "100" && Dash !in "Alpha" && Dash !in "200" && Dash !in "Beta";
    assert Dash !in "1" && Dash !in "Setup" && Dash !in "2" && Dash !in "Build";
    OneDash("100", "Alpha");
    OneDash("200", "Beta");
    OneDash("1", "Setup");
    OneDash("2", "Build");
  }

  /** None of the four display names carries a path suffix, so each icon
      file name is the plain `myIcon_<name>.ico`. */
  lemma IconNames()
    ensures IconFileName("Alpha") == "myIcon_Alpha.ico"
    ensures IconFileName("Beta") == "myIcon_Beta.ico"
    ensures IconFileName("Setup") == "myIcon_Setup.ico"
    ensures IconFileName("Build") == "myIcon_Build.ico"
  {
    PlainWithoutDot("Alpha");
    PlainWithoutDot("Beta");
    PlainWithoutDot("Setup");
    PlainWithoutDot("Build");
  }

  lemma PlainWithoutDot(name: string)
    requires name in {"Alpha", "Beta", "Setup", "Build"}
    ensures IconFileName(name) == PlainIconName(name)
  {
    assert '.' !in name;
  }

  /** The entry recorded for a work-package whose identifier splits into
      `id` and `name`. */
  lemma EntryOf(wp: string, id: string, name: string, existing: set<string>)
    requires GetIdName(wp) == (id, name)
    ensures WorkPackageEntry(wp, existing) == (id, WorkPackage(name, ImagePath(name, existing)))
  {
  }

  lemma AlphaWorkPackages(existing: set<string>)
    ensures WorkPackagePairs(["1-Setup", "2-Build"], existing) == Alpha(existing).workpackages
  {
    var src := ["1-Setup", "2-Build"];
    var wps := WorkPackagePairs(src, existing);
    var want := Alpha(existing).workpackages;
    ConfIds();
    EntryOf(src[0], "1", "Setup", existing);
    EntryOf(src[1], "2", "Build", existing);
    assert |wps| == |want| == 2;
    assert wps[0] == want[0];
    assert wps[1] == want[1];
    forall j | 0 <= j < |wps| ensures wps[j] == want[j] {
      assert j == 0 || j == 1;
    }
  }

  lemma AlphaProject(existing: set<string>)
    ensures MakeProject("100-Alpha", ["1-Setup", "2-Build"], existing) == Alpha(existing)
  {
    ConfIds();
    AlphaWorkPackages(existing);
    var wps := Alpha(existing).workpackages;
    assert |Keys(wps)| == 2 && Keys(wps)[0] == "1" && Keys(wps)[1] == "2";
    forall i, j | 0 <= i < j < |Keys(wps)| ensures Keys(wps)[i] != Keys(wps)[j] {
      assert i == 0 && j == 1;
    }
    FromPairsDistinct(wps);
  }

  lemma BetaProject(existing: set<string>)
    ensures MakeProject("200-Beta", [], existing) == Beta(existing)
  {
    ConfIds();
    var empty: OMap<string, WorkPackage> := [];
    assert WorkPackagePairs([], existing) == empty;
  }

  /** The pairs assigned for a two-project configuration. */
  lemma PairsOfTwo(conf: Config, existing: set<string>)
    requires |conf| == 2
    ensures var p := MakeProject(conf[0].0, conf[0].1, existing);
      var q := MakeProject(conf[1].0, conf[1].1, existing);
      ProjectPairs(conf, existing) == [(p.id, p), (q.id, q)]
  {
    var ps := ProjectPairs(conf, existing);
    var p := MakeProject(conf[0].0, conf[0].1, existing);
    var q := MakeProject(conf[1].0, conf[1].1, existing);
    var want := [(p.id, p), (q.id, q)];
    assert ps[0] == want[0] && ps[1] == want[1];
    forall i | 0 <= i < 2 ensures ps[i] == want[i] {
      assert i == 0 || i == 1;
    }
  }

  /** The pairs assigned to the catalog, one per configured project. */
  lemma ScenarioPairs(existing: set<string>)
    ensures ProjectPairs(Conf, existing) == [("100", Alpha(existing)), ("200", Beta(existing))]
  {
    PairsOfTwo(Conf, existing);
    assert Conf[0] == ("100-Alpha", ["1-Setup", "2-Build"]) && Conf[1] == ("200-Beta", []);
    AlphaProject(existing);
    BetaProject(existing);
  }

  lemma TwoKeysDistinct<V>(a: V, b: V)
    ensures Distinct(Keys([("100", a), ("200", b)]))
  {
    var ks := Keys([("100", a), ("200", b)]);
    assert |ks| == 2 && ks[0] == "100" && ks[1] == "200";
    forall i, j | 0 <= i < j < |ks| ensures ks[i] != ks[j] {
      assert i == 0 && j == 1;
    }
  }

  /** The catalog: Alpha then Beta, Alpha's work-packages in order. */
  lemma ScenarioCatalog(existing: set<string>)
    ensures BuildCatalog(Conf, existing) == [("100", Alpha(existing)), ("200", Beta(existing))]
  {
    ScenarioPairs(existing);
    TwoKeysDistinct(Alpha(existing), Beta(existing));
    FromPairsDistinct([("100", Alpha(existing)), ("200", Beta(existing))]);
  }

  /** The catalog built when only the Alpha icon file exists. */
  const LoadedAlpha: Project :=
    Project("100", "Alpha", Some(AlphaIcon), [("1", WorkPackage("Setup", None)), ("2", WorkPackage("Build", None))])
  const LoadedBeta: Project := Project("200", "Beta", None, [])
  const Cat: Catalog := [("100", LoadedAlpha), ("200", LoadedBeta)]

  /** With only the Alpha icon present, Alpha shows it and everything
      else has no icon of its own. */
  lemma ScenarioIcons()
    ensures Alpha(Icons) == LoadedAlpha
    ensures Beta(Icons) == LoadedBeta
  {
    IconNames();
  }

  /** The catalog built from the configuration with only the Alpha icon. */
  lemma CatalogIs()
    ensures BuildCatalog(Conf, Icons) == Cat
  {
    ScenarioCatalog(Icons);
    ScenarioIcons();
  }

  /** The info the menu's Quit entry logs. */
  lemma MenuExitInfo()
    ensures QuitInfo(MenuExitReason.Text()) == "QUIT (Menu Exit)"
  {
    assert MenuExitReason.Text() == "Menu Exit";
  }

  /** Both projects are found under their ids, and Alpha's work-packages
      under theirs. */
  lemma CatLookups()
    ensures "100" in Keys(Cat) && Get(Cat, "100") == Some(LoadedAlpha)
    ensures "200" in Keys(Cat) && Get(Cat, "200") == Some(LoadedBeta)
    ensures Get(LoadedAlpha.workpackages, "1") == Some(WorkPackage("Setup", None))
    ensures Get(LoadedAlpha.workpackages, "2") == Some(WorkPackage("Build", None))
  {
    assert Keys(Cat)[0] == "100" && Keys(Cat)[1] == "200";
  }

  /** The menu of that catalog. */
  lemma MenuOfCat()
    ensures MakeMenu(Cat) ==
      [ Submenu("Alpha", [Radio("Setup", ProjectWP("100", "1")), Radio("Build", ProjectWP("100", "2"))]),
        Radio("Beta", ProjectOnly("200")),
        Separator,
        Action("Quit", "Menu Exit") ]
  {
    var m := MakeMenu(Cat);
    var subs := [Radio("Setup", ProjectWP("100", "1")), Radio("Build", ProjectWP("100", "2"))];
    var want := [Submenu("Alpha", subs), Radio("Beta", ProjectOnly("200")), Separator, Action("Quit", "Menu Exit")];
    assert m[0] == want[0] by {
      var es := WpEntries("100", LoadedAlpha.workpackages);
      assert |es| == |subs| == 2;
      assert es[0] == subs[0] && es[1] == subs[1];
      forall j | 0 <= j < |es| ensures es[j] == subs[j] {
        assert j == 0 || j == 1;
      }
    }
    assert |m| == 4 && m[1] == want[1] && m[2] == want[2] && m[3] == want[3];
    forall i | 0 <= i < 4 ensures m[i] == want[i] {
      assert i == 0 || i == 1 || i == 2 || i == 3;
    }
  }

  /** The menu: an Alpha submenu with Setup and Build, a Beta entry, the
      separator and Quit. */
  lemma ScenarioMenu()
    ensures MakeMenu(BuildCatalog(Conf, Icons)) ==
      [ Submenu("Alpha", [Radio("Setup", ProjectWP("100", "1")), Radio("Build", ProjectWP("100", "2"))]),
        Radio("Beta", ProjectOnly("200")),
        Separator,
        Action("Quit", "Menu Exit") ]
  {
    CatalogIs();
    MenuOfCat();
  }

  /** The labels and images the session below needs. */
  lemma CatLabels()
    ensures "100" in Keys(Cat) && "200" in Keys(Cat)
    ensures LogLabel(Cat, ProjectWP("100", "1")) == "100:1"
    ensures LogLabel(Cat, ProjectOnly("200")) == "200"
    ensures LogLabel(Cat, ProjectWP("100", "2")) == "100:2"
  {
    CatLookups();
    assert Label(LoadedAlpha, Some("1")) == "100" + ":" + "1";
    assert Label(LoadedAlpha, Some("2")) == "100" + ":" + "2";
  }

  lemma CatIcons()
    ensures "100" in Keys(Cat) && "200" in Keys(Cat)
    ensures WpIcon(KeyProject(Cat, ProjectWP("100", "1")), Some("1")) == Some(AlphaIcon)
    ensures DisplayIcon(Cat, ProjectOnly("200"), AlphaIcon) == AlphaIcon
    ensures DisplayIcon(Cat, ProjectWP("100", "2"), AlphaIcon) == AlphaIcon
  {
    CatLookups();
  }

  /** Start-up selects Alpha's first work-package, shows the Alpha icon,
      keeps it as the fallback and logs `100:1`. */
  lemma ScenarioStartup(ts: string)
    ensures var r := Launch(Conf, Icons, ts);
      && r.Success?
      && r.value.catalog == Cat
      && r.value.current == ProjectWP("100", "1")
      && r.value.icon == AlphaIcon && r.value.fallback == AlphaIcon
      && r.value.log == [Record(ts, "100:1")]
      && r.value.running
  {
    CatalogIs();
    CatLabels();
    CatIcons();
    assert DefaultKey(Cat) == Some(ProjectWP("100", "1"));
  }

  /** From the start-up selection, clicking Beta logs `200` and falls
      back to the start-up image. */
  lemma ClickBeta(t0: Tray, ts1: string)
    requires t0.catalog == Cat && t0.current == ProjectWP("100", "1") && t0.fallback == AlphaIcon
    ensures "200" in Keys(Cat)
    ensures var t1 := OnClick(t0, ProjectOnly("200"), ts1);
      && t1.catalog == Cat && t1.current == ProjectOnly("200") && t1.fallback == AlphaIcon
      && t1.icon == AlphaIcon && t1.log == t0.log + [Record(ts1, "200")] && t1.running == t0.running
  {
    CatLabels();
    CatIcons();
    assert OnClick(t0, ProjectOnly("200"), ts1) == ChangeProject(t0, ProjectOnly("200"), ts1);
  }

  /** Then clicking Alpha/Build logs `100:2` and shows Alpha's icon. */
  lemma ClickBuild(t1: Tray, ts2: string)
    requires t1.catalog == Cat && t1.current == ProjectOnly("200") && t1.fallback == AlphaIcon
    ensures "100" in Keys(Cat)
    ensures var t2 := OnClick(t1, ProjectWP("100", "2"), ts2);
      && t2.catalog == Cat && t2.icon == AlphaIcon
      && t2.log == t1.log + [Record(ts2, "100:2")] && t2.running == t1.running
  {
    CatLabels();
    CatIcons();
    assert OnClick(t1, ProjectWP("100", "2"), ts2) == ChangeProject(t1, ProjectWP("100", "2"), ts2);
  }

  /** Three lines appended one at a time. */
  lemma ThreeMore<T>(s: seq<T>, a: T, b: T, c: T)
    ensures s + [a] + [b] + [c] == s + [a, b, c]
  {
  }

  /** From the start-up selection, clicking Beta, then Alpha/Build, then
      Quit logs `200`, `100:2` and `QUIT (Menu Exit)`, shows Alpha's icon
      after each click, and stops. */
  lemma ClicksFromStart(t0: Tray, ts1: string, ts2: string, ts3: string)
    requires t0.catalog == Cat && t0.current == ProjectWP("100", "1") && t0.fallback == AlphaIcon
    ensures "200" in Keys(Cat) && "100" in Keys(Cat)
    ensures var t1 := OnClick(t0, ProjectOnly("200"), ts1);
      && t1.catalog == Cat && t1.icon == AlphaIcon
      && var t2 := OnClick(t1, ProjectWP("100", "2"), ts2);
      var t3 := Quit(t2, MenuExitReason.Text(), ts3);
      && t2.icon == AlphaIcon
      && t3.log == t0.log + [Record(ts1, "200"), Record(ts2, "100:2"), Record(ts3, "QUIT (Menu Exit)")]
      && !t3.running
  {
    ClickBeta(t0, ts1);
    var t1 := OnClick(t0, ProjectOnly("200"), ts1);
    ClickBuild(t1, ts2);
    var t2 := OnClick(t1, ProjectWP("100", "2"), ts2);
    MenuExitInfo();
    ThreeMore(t0.log, Record(ts1, "200"), Record(ts2, "100:2"), Record(ts3, "QUIT (Menu Exit)"));
  }

  /** Four log lines, the first written at start-up. */
  lemma FourLines<T>(a: T, b: T, c: T, d: T)
    ensures [a] + [b, c, d] == [a, b, c, d]
  {
  }

  /** The whole session: start-up, two clicks and Quit write four lines. */
  lemma ScenarioSession(ts0: string, ts1: string, ts2: string, ts3: string)
    ensures var r0 := Launch(Conf, Icons, ts0);
      && r0.Success?
      && r0.value.catalog == Cat
      && "200" in Keys(Cat) && "100" in Keys(Cat)
      && var t1 := OnClick(r0.value, ProjectOnly("200"), ts1);
         && t1.catalog == Cat
         && var t2 := OnClick(t1, ProjectWP("100", "2"), ts2);
         var t3 := Quit(t2, MenuExitReason.Text(), ts3);
         && t3.log == [Record(ts0, "100:1"), Record(ts1, "200"), Record(ts2, "100:2"),
                       Record(ts3, "QUIT (Menu Exit)")]
         && !t3.running
  {
    ScenarioStartup(ts0);
    ClicksFromStart(Launch(Conf, Icons, ts0).value, ts1, ts2, ts3);
    FourLines(Record(ts0, "100:1"), Record(ts1, "200"), Record(ts2, "100:2"), Record(ts3, "QUIT (Menu Exit)"));
  }

  /** The catalog built when no icon file exists. */
  const BareAlpha: Project :=
    Project("100", "Alpha", None, [("1", WorkPackage("Setup", None)), ("2", WorkPackage("Build", None))])
  const BareCat: Catalog := [("100", BareAlpha), ("200", LoadedBeta)]

  lemma BareCatalog()
    ensures BuildCatalog(Conf, {}) == BareCat
  {
    ScenarioCatalog({});
    IconNames();
    assert Alpha({}) == BareAlpha;
    assert Beta({}) == LoadedBeta;
  }

  lemma BareStartup(ts: string)
    ensures Startup(BareCat, ProjectWP("100", "1"), ts) == Failure(NoStartupIcon)
  {
    assert Keys(BareCat)[0] == "100";
    assert Get(BareCat, "100") == Some(BareAlpha);
    assert Get(BareAlpha.workpackages, "1") == Some(WorkPackage("Setup", None));
  }

  /** Without any icon file the start-up image cannot be opened. */
  lemma ScenarioNoIcons(ts: string)
    ensures Launch(Conf, {}, ts) == Failure(NoStartupIcon)
  {
    BareCatalog();
    assert DefaultKey(BareCat) == Some(ProjectWP("100", "1"));
    BareStartup(ts);
  }

  /** A configuration with a single project and no work-packages, whose
      icon file exists: the first project's name `Alpha` is no project id. */
  const LoneConf: Config := [("100-Alpha", [])]
  const LoneAlpha: Project := Project("100", "Alpha", Some(AlphaIcon), [])
  const LoneCat: Catalog := [("100", LoneAlpha)]

  lemma LoneProject(existing: set<string>)
    ensures MakeProject("100-Alpha", [], existing) == Project("100", "Alpha", ImagePath("Alpha", existing), [])
  {
    ConfIds();
    var empty: OMap<string, WorkPackage> := [];
    assert WorkPackagePairs([], existing) == empty;
  }

  lemma LoneProjectBuilt()
    ensures MakeProject("100-Alpha", [], Icons) == LoneAlpha
  {
    LoneProject(Icons);
    ScenarioIcons();
    assert Alpha(Icons).icon == ImagePath("Alpha", Icons);
  }

  lemma LoneCatalog()
    ensures BuildCatalog(LoneConf, Icons) == LoneCat
  {
    var ps := ProjectPairs(LoneConf, Icons);
    assert ps == LoneCat by {
      LoneProjectBuilt();
      assert |ps| == 1 && ps[0] == LoneCat[0];
    }
    assert Distinct(Keys(ps)) by {
      assert |Keys(ps)| == 1;
    }
    FromPairsDistinct(ps);
  }

  /** On that catalog the default as written is the bare key `Alpha`, the
      corrected one the bare key `100`. */
  lemma LoneDefaults()
    ensures DefaultKey(LoneCat) == Some(ProjectOnly("Alpha"))
    ensures IntendedDefaultKey(LoneCat) == Some(ProjectOnly("100"))
  {
  }

  /** Starting that catalog on either default. */
  lemma LoneStartups(ts: string)
    ensures Startup(LoneCat, ProjectOnly("Alpha"), ts) == Failure(UnknownProject("Alpha"))
    ensures var r := Startup(LoneCat, ProjectOnly("100"), ts);
      r.Success? && r.value.icon == AlphaIcon && r.value.log == [Record(ts, "100")]
  {
    assert Keys(LoneCat) == ["100"];
    assert Get(LoneCat, "100") == Some(LoneAlpha);
    assert Label(LoneAlpha, None) == "100";
  }

  /** A one-project configuration whose name is no project id: start-up as
      written stops on the unknown key `Alpha`, the corrected start-up shows
      the project's icon and logs its id. */
  lemma DefaultNameCounterexample(ts: string)
    ensures Launch(LoneConf, Icons, ts) == Failure(UnknownProject("Alpha"))
    ensures var r := IntendedLaunch(LoneConf, Icons, ts);
      r.Success? && r.value.icon == AlphaIcon && r.value.log == [Record(ts, "100")]
  {
    LoneCatalog();
    LoneDefaults();
    LoneStartups(ts);
  }
}
