/** The main script of the older Win32 tray (main.py:196-242): the option
    tree built from the project configuration, and `switchProjectCB`, the
    callback every project option carries. */
module LegacyOptions {
  import opened Wrappers
  import opened Identifiers
  import opened IconFiles
  import opened Catalog
  import opened SysTray

  /** `partial(switchProjectCB, newPrj=..., newWP=..., newicon=...)`. */
  datatype Switch = Switch(prj: string, wp: string, icon: Option<string>)

  const FallbackIcon: string := "myIcon_Meta.ico"
  const DefaultWp: string := "Default"
  const StartHover: string := "No Project selected!"

  /** A work-package option's icon (main.py:224-226): its own listed icon,
      else the project's. */
  function WpOptionIcon(wpName: string, prjIcon: Option<string>, icons: set<string>): Option<string> {
    if ListedIcon(wpName, icons).Some? then ListedIcon(wpName, icons) else prjIcon
  }

  /** The option for one work-package of a multi-work-package project. */
  function WpOption(pid: string, wp: string, prjIcon: Option<string>, icons: set<string>): MenuOption<Switch> {
    var name := GetIdName(wp).1;
    var icon := WpOptionIcon(name, prjIcon, icons);
    MenuOption(name, icon, Call(Switch(pid, GetIdName(wp).0, icon)))
  }

  function WpOptions(pid: string, wps: seq<string>, prjIcon: Option<string>, icons: set<string>)
    : (os: seq<MenuOption<Switch>>)
    ensures |os| == |wps|
    ensures forall j :: 0 <= j < |wps| ==> os[j] == WpOption(pid, wps[j], prjIcon, icons)
  {
    seq(|wps|, j requires 0 <= j < |wps| => WpOption(pid, wps[j], prjIcon, icons))
  }

  /** A single-work-package project's icon (main.py:233-236): its own listed
      icon, else the work-package's listed icon. */
  function SingleWpIcon(prjIcon: Option<string>, wpName: string, icons: set<string>): Option<string> {
    if prjIcon.None? then ListedIcon(wpName, icons) else prjIcon
  }

  /** The option for one configured project (main.py:213-241).  Its text is
      the last dash piece of the key; more than one work-package gives a
      submenu with one entry per work-package in list order, each logging
      the project id and that work-package's id; otherwise a single callback
      logging the project id with the only work-package's id, or `Default`
      when there is none.  A submenu and a work-package-less leaf show the
      project's own listed icon; a leaf hands its icon to the callback. */
  function ProjectOption(prj: string, wps: seq<string>, icons: set<string>): (o: MenuOption<Switch>)
    ensures var pid := GetIdName(prj).0;
      && o.text == GetIdName(prj).1
      && (o.action.Options? <==> |wps| > 1)
      && (o.action.Call? <==> |wps| <= 1)
      && (|wps| > 1 ==>
            |o.action.items| == |wps|
            && forall j :: 0 <= j < |wps| ==>
                 o.action.items[j].text == GetIdName(wps[j]).1
                 && o.action.items[j].action.Call?
                 && o.action.items[j].action.f.prj == pid
                 && o.action.items[j].action.f.wp == GetIdName(wps[j]).0)
      && (|wps| == 1 ==> o.action.f.prj == pid && o.action.f.wp == GetIdName(wps[0]).0)
      && (|wps| == 0 ==> o.action.f.prj == pid && o.action.f.wp == DefaultWp)
      && (|wps| != 1 ==> o.icon == ListedIcon(GetIdName(prj).1, icons))
      && (|wps| <= 1 ==> o.action.f.icon == o.icon)
  {
    var pid := GetIdName(prj).0;
    var text := GetIdName(prj).1;
    var prjIcon := ListedIcon(text, icons);
    if |wps| > 1 then
      MenuOption(text, prjIcon, Options(WpOptions(pid, wps, prjIcon, icons)))
    else if |wps| == 1 then
      var icon := SingleWpIcon(prjIcon, GetIdName(wps[0]).1, icons);
      MenuOption(text, icon, Call(Switch(pid, GetIdName(wps[0]).0, icon)))
    else
      MenuOption(text, prjIcon, Call(Switch(pid, DefaultWp, prjIcon)))
  }

  /** The option tree handed to `SysTrayIcon`, one option per configuration
      entry in configuration order, so a repeated project id gives two
      options where the current version keeps one project. */
  function BuildOptions(conf: Config, icons: set<string>): (os: seq<MenuOption<Switch>>)
    ensures |os| == |conf|
    ensures forall i :: 0 <= i < |conf| ==> os[i] == ProjectOption(conf[i].0, conf[i].1, icons)
  {
    seq(|conf|, i requires 0 <= i < |conf| => ProjectOption(conf[i].0, conf[i].1, icons))
  }

  /** In a submenu a work-package's own icon wins over the project's. */
  lemma MultiWpIconPrecedence(prj: string, wps: seq<string>, icons: set<string>, j: nat)
    requires |wps| > 1 && j < |wps|
    ensures var o := ProjectOption(prj, wps, icons);
      var own := ListedIcon(GetIdName(wps[j]).1, icons);
      var project := ListedIcon(GetIdName(prj).1, icons);
      o.action.Options? && j < |o.action.items|
      && o.action.items[j].icon == (if own.Some? then own else project)
      && o.action.items[j].action == Call(Switch(GetIdName(prj).0, GetIdName(wps[j]).0, o.action.items[j].icon))
  {
  }

  /** For a lone work-package the precedence is reversed: the project's own
      icon wins over the work-package's. */
  lemma SingleWpIconPrecedence(prj: string, wp: string, icons: set<string>)
    ensures var o := ProjectOption(prj, [wp], icons);
      var own := ListedIcon(GetIdName(wp).1, icons);
      var project := ListedIcon(GetIdName(prj).1, icons);
      o.icon == (if project.Some? then project else own)
      && o.action == Call(Switch(GetIdName(prj).0, GetIdName(wp).0, o.icon))
  {
  }

  /** So when both icon files are listed and differ, the same work-package
      shows a different icon depending on whether it has siblings. */
  lemma PrecedenceReversed(prj: string, wp: string, sibling: string, icons: set<string>)
    requires PlainIconName(GetIdName(prj).1) in icons && PlainIconName(GetIdName(wp).1) in icons
    requires GetIdName(prj).1 != GetIdName(wp).1
    ensures ProjectOption(prj, [wp], icons).icon == Some(PlainIconName(GetIdName(prj).1))
    ensures ProjectOption(prj, [wp, sibling], icons).action.items[0].icon == Some(PlainIconName(GetIdName(wp).1))
    ensures ProjectOption(prj, [wp], icons).icon != ProjectOption(prj, [wp, sibling], icons).action.items[0].icon
  {
    SingleWpIconPrecedence(prj, wp, icons);
    MultiWpIconPrecedence(prj, [wp, sibling], icons, 0);
    PlainIconNameInjective(GetIdName(prj).1, GetIdName(wp).1);
  }

  /** An icon an option carries is either absent or a listed file. */
  predicate Listed(icon: Option<string>, icons: set<string>) {
    icon.Some? ==> icon.value in icons
  }

  /** Every callback in the built options carries a listed icon or none. */
  lemma BuildOptionsListed(conf: Config, icons: set<string>)
    ensures CallsSatisfy(BuildOptions(conf, icons), (s: Switch) => Listed(s.icon, icons))
  {
    var P := (s: Switch) => Listed(s.icon, icons);
    var os := BuildOptions(conf, icons);
    forall i | 0 <= i < |os| ensures CallSatisfies(os[i], P) {
      ProjectOptionListed(conf[i].0, conf[i].1, icons);
    }
    CallsSatisfyAll(os, P);
  }

  lemma ProjectOptionListed(prj: string, wps: seq<string>, icons: set<string>)
    ensures CallSatisfies(ProjectOption(prj, wps, icons), (s: Switch) => Listed(s.icon, icons))
  {
    var P := (s: Switch) => Listed(s.icon, icons);
    var o := ProjectOption(prj, wps, icons);
    if |wps| > 1 {
      var os := o.action.items;
      forall j | 0 <= j < |os| ensures CallSatisfies(os[j], P) {
        assert os[j] == WpOption(GetIdName(prj).0, wps[j], ListedIcon(GetIdName(prj).1, icons), icons);
      }
      CallsSatisfyAll(os, P);
    }
  }

  lemma {:induction false} CallsSatisfyAll<A>(os: seq<MenuOption<A>>, P: A -> bool)
    requires forall i :: 0 <= i < |os| ==> CallSatisfies(os[i], P)
    ensures CallsSatisfy(os, P)
    decreases |os|
  {
    if os != [] {
      assert forall i :: 0 <= i < |os[1..]| ==> os[1..][i] == os[i + 1];
      CallsSatisfyAll(os[1..], P);
    }
  }

  /** The state `switchProjectCB` touches: the tray image, the hover text,
      the lines appended to the log file, and whether the loop runs. */
  datatype LegacyTray = LegacyTray(icon: string, hover: string, log: seq<string>, running: bool)

  /** The tray as the script starts it (main.py:197-198, 267). */
  const Start: LegacyTray := LegacyTray(FallbackIcon, StartHover, [], true)

  const LegacyMarker: string := " - changed <"
  const FieldBreak: string := ">:<"
  const LegacyClose: string := ">\n"

  /** The line `switchProjectCB` appends (main.py:202):
      `<ts> - changed <prj>:<wp>` and a newline. */
  function LegacyRecord(ts: string, prj: string, wp: string): string {
    ts + LegacyMarker + prj + FieldBreak + wp + LegacyClose
  }

  /** Reads project and work-package back from a line stamped `ts`; the
      project part ends at the first `>`. */
  function LegacyFields(ts: string, line: string): Option<(string, string)> {
    var head := ts + LegacyMarker;
    if |line| < |head| || line[..|head|] != head || '>' !in line[|head|..] then None
    else
      var rest := line[|head|..];
      var k := IndexOf(rest, '>');
      var after := rest[k..];
      if |after| < |FieldBreak| + |LegacyClose| || after[..|FieldBreak|] != FieldBreak
         || after[|after| - |LegacyClose|..] != LegacyClose
      then None
      else Some((rest[..k], after[|FieldBreak|..|after| - |LegacyClose|]))
  }

  /** The first `c` of `a + b` is the head of `b` when `a` holds none. */
  lemma {:induction false} IndexOfAfter(a: string, b: string, c: char)
    requires c !in a && b != [] && b[0] == c
    ensures c in a + b && IndexOf(a + b, c) == |a|
    decreases |a|
  {
    assert (a + b)[|a|] == c;
    if a != [] {
      assert (a + b)[1..] == a[1..] + b;
      IndexOfAfter(a[1..], b, c);
    }
  }

  /** What follows the project id in a record: `>:<`, the work-package id
      and the closing `>` with the newline. */
  lemma RecordTail(wp: string)
    ensures var tail := FieldBreak + wp + LegacyClose;
      && tail[0] == '>'
      && |tail| >= |FieldBreak| + |LegacyClose|
      && tail[..|FieldBreak|] == FieldBreak
      && tail[|tail| - |LegacyClose|..] == LegacyClose
      && tail[|FieldBreak|..|tail| - |LegacyClose|] == wp
  {
    var tail := FieldBreak + wp + LegacyClose;
    assert tail[..|FieldBreak|] == FieldBreak;
    assert tail[|tail| - |LegacyClose|..] == LegacyClose;
    assert tail[|FieldBreak|..|tail| - |LegacyClose|] == wp;
  }

  /** A record is the stamp and marker followed by the project id and the
      tail above. */
  lemma RecordHead(ts: string, prj: string, wp: string)
    ensures var line := LegacyRecord(ts, prj, wp);
      var head := ts + LegacyMarker;
      && |head| <= |line|
      && line[..|head|] == head
      && line[|head|..] == prj + (FieldBreak + wp + LegacyClose)
  {
    var line := LegacyRecord(ts, prj, wp);
    var head := ts + LegacyMarker;
    var rest := prj + (FieldBreak + wp + LegacyClose);
    assert line == head + rest;
  }

  /** The record can be read back whenever the project id holds no `>`. */
  lemma LegacyRecordRoundTrip(ts: string, prj: string, wp: string)
    ensures '>' !in prj ==> LegacyFields(ts, LegacyRecord(ts, prj, wp)) == Some((prj, wp))
  {
    if '>' in prj {
      return;
    }
    var tail := FieldBreak + wp + LegacyClose;
    var rest := prj + tail;
    RecordHead(ts, prj, wp);
    RecordTail(wp);
    IndexOfAfter(prj, tail, '>');
    assert rest[..|prj|] == prj && rest[|prj|..] == tail;
  }

  /** `switchProjectCB` (main.py:200-210): one line is logged and becomes
      the hover text; the image becomes the callback's icon when that file
      is listed, else the fallback image. */
  function SwitchProject(t: LegacyTray, cb: Switch, ts: string, icons: set<string>): (r: LegacyTray)
    ensures |r.log| == |t.log| + 1 && r.log[..|t.log|] == t.log && r.hover == r.log[|t.log|]
    ensures r.log[|t.log|] == LegacyRecord(ts, cb.prj, cb.wp)
    ensures '>' !in cb.prj ==> LegacyFields(ts, r.log[|t.log|]) == Some((cb.prj, cb.wp))
    ensures r.icon in icons || r.icon == FallbackIcon
    ensures cb.icon.Some? && cb.icon.value in icons ==> r.icon == cb.icon.value
    ensures cb.icon.None? || cb.icon.value !in icons ==> r.icon == FallbackIcon
    ensures r.running == t.running
  {
    var line := LegacyRecord(ts, cb.prj, cb.wp);
    LegacyRecordRoundTrip(ts, cb.prj, cb.wp);
    var icon := if cb.icon.Some? && cb.icon.value in icons then cb.icon.value else FallbackIcon;
    var r := LegacyTray(icon, line, t.log + [line], t.running);
    assert r.log[..|t.log|] == t.log;
    r
  }

  /** Before any click the tray shows the fallback image, the hover text
      says no project is selected and the log is empty; a first click on a
      project option logs one line, which replaces that hover text. */
  lemma FirstClickFromStart(actions: map<int, Value<Switch>>, id: int, ts: string, icons: set<string>)
    requires id in actions && actions[id].Call?
    ensures Start.icon == FallbackIcon && Start.log == [] && Start.running
    ensures var r := Click(Start, actions, id, ts, icons);
      && r.Success? && r.value.running
      && |r.value.log| == 1 && r.value.hover == r.value.log[0]
      && r.value.hover != StartHover
  {
    var line := LegacyRecord(ts, actions[id].f.prj, actions[id].f.wp);
    assert line[|line| - 1] == '\n';
    assert StartHover[|StartHover| - 1] == '!';
  }

  /** A click on menu id `id`: dispatch, then either the callback runs or
      the window is destroyed, which ends the loop. */
  function Click(t: LegacyTray, actions: map<int, Value<Switch>>, id: int, ts: string, icons: set<string>)
    : (r: Result<LegacyTray, DispatchError>)
    ensures id !in actions ==> r == Failure(UnknownId(id))
    ensures id in actions && IsSpecial(actions[id]) ==> r == Success(t.(running := false))
    ensures id in actions && actions[id].Call? ==> r == Success(SwitchProject(t, actions[id].f, ts, icons))
    ensures id in actions && !IsLeafAction(actions[id]) ==> r == Failure(NotCallable(id))
  {
    match Execute(actions, id)
    case Failure(e) => Failure(e)
    case Success(DestroyWindow) => Success(t.(running := false))
    case Success(Invoke(cb)) => Success(SwitchProject(t, cb, ts, icons))
  }

  /** The tray the script starts: its numbered menu. */
  function LegacyMenu(conf: Config, icons: set<string>): Numbering<Switch> {
    Setup(BuildOptions(conf, icons))
  }

  /** On the script's own menu a click succeeds exactly on the leaf ids; a
      project click shows that option's icon whenever it has one (the
      `in icons` check never rejects it) and the fallback image otherwise. */
  lemma LegacyClickShowsOptionIcon(t: LegacyTray, conf: Config, icons: set<string>, id: int, ts: string)
    ensures var m := LegacyMenu(conf, icons);
      var r := Click(t, m.actions, id, ts, icons);
      && (r.Success? <==> id in LeafIds(m.items))
      && (id in m.actions && m.actions[id].Call? ==>
            r.Success? && r.value.icon == m.actions[id].f.icon.GetOr(FallbackIcon)
            && |r.value.log| == |t.log| + 1)
  {
    var m := LegacyMenu(conf, icons);
    var P := (s: Switch) => Listed(s.icon, icons);
    BuildOptionsListed(conf, icons);
    SetupCallsSatisfy(BuildOptions(conf, icons), P);
    SetupDispatch(BuildOptions(conf, icons), id);
    if id in m.actions && m.actions[id].Call? {
      assert P(m.actions[id].f);
    }
  }

  /** The last top-level entry of the script's menu is Quit, registered
      with `QUIT`, so that clicking it stops the loop without logging. */
  lemma LegacyQuit(conf: Config, icons: set<string>)
    ensures var os := BuildOptions(conf, icons); var m := LegacyMenu(conf, icons);
      var q := FirstId + Count(os);
      && |m.items| >= 1 && m.items[|m.items| - 1].id == q
      && q in m.actions && IsSpecial(m.actions[q])
  {
    SetupQuitLast(BuildOptions(conf, icons));
  }

  /** Nothing the script builds is dropped by the numbering: every option
      is a callback or a submenu of callbacks. */
  lemma BuildOptionsKnown(conf: Config, icons: set<string>)
    ensures Known(BuildOptions(conf, icons)) == BuildOptions(conf, icons)
  {
    var os := BuildOptions(conf, icons);
    forall i | 0 <= i < |os| ensures KnownOption(os[i]) {
      if |conf[i].1| > 1 {
        AllKnownFromIndex(os[i].action.items);
      }
    }
    AllKnownFromIndex(os);
    KnownAllOf(os);
  }

  /** Options whose actions are callables or submenus of such options. */
  predicate AllKnown<A>(os: seq<MenuOption<A>>)
    decreases os
  {
    os == [] || (KnownOption(os[0]) && AllKnown(os[1..]))
  }

  predicate KnownOption<A>(o: MenuOption<A>)
    decreases o
  {
    match o.action
    case Call(_) => true
    case Options(items) => AllKnown(items)
    case _ => false
  }

  lemma {:induction false} KnownAllOf<A>(os: seq<MenuOption<A>>)
    requires AllKnown(os)
    ensures Known(os) == os
    decreases os
  {
    if os != [] {
      KnownAllOf(os[1..]);
      var o := os[0];
      if o.action.Options? {
        KnownAllOf(o.action.items);
        assert KnownOne(o) == [o];
      }
      assert os == [o] + os[1..];
    }
  }

  lemma {:induction false} AllKnownFromIndex<A>(os: seq<MenuOption<A>>)
    requires forall i :: 0 <= i < |os| ==> KnownOption(os[i])
    ensures AllKnown(os)
    decreases |os|
  {
    if os != [] {
      assert forall i :: 0 <= i < |os[1..]| ==> os[1..][i] == os[i + 1];
      AllKnownFromIndex(os[1..]);
    }
  }
}
