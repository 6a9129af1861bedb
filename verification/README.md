# PrjTrx tray — a Dafny model of the selection and menu core

PrjTrx is a small system-tray tool for tracking the project and work-package
a person is working on. The tray menu lists the projects from a configuration
mapping. Picking an entry changes the tray icon and appends a time-stamped
line to a log file. The repository holds two versions:

- `prj_pystray.py`, the current one, built on pystray;
- `main.py`, an older Win32 version built around the `SysTrayIcon` class.

This project models the pure core of both versions as immutable Dafny
datatypes and total functions, and proves what the code promises about them.

Modules, one file each:

| module | file | models |
|---|---|---|
| `Wrappers` | wrappers.dfy | `Option` and `Result` |
| `OrderedMap` | ordered_map.dfy | Python's insertion-ordered `dict`/`OrderedDict` as a sequence of pairs; assignment overwrites in place, new keys append |
| `Identifiers` | identifiers.dfy | `str.split('-')` and `get_id_name` |
| `IconFiles` | icon_files.dfy | icon file names: `get_image_path` (pathlib `with_suffix`) and the older version's membership check |
| `Catalog` | catalog.dfy | `Project`, the project catalog, `get_project`, `get_wp_icon`, `get_id` |
| `TrayMenu` | tray_menu.dfy | `PrjTray.make_menu` as a tree of radio entries, submenus, a separator and Quit |
| `Selection` | selection.dfy | the `PrjTray` state machine (`on_click`, `is_selected`, `change_project`, `log_change`, `quit`), the default selection and start-up |
| `SysTray` | sys_tray.dfy | `SysTrayIcon` numbering (`_add_ids_to_menu_options`), `create_menu`, `execute_menu_option`, `non_string_iterable` |
| `LegacyOptions` | legacy_options.dfy | the older version's menu-options builder, `switchProjectCB` and a click on the built menu |
| `Scenario` | scenario.dfy | a worked session of the current version on a two-project configuration (catalog, menu, start-up, two clicks and Quit), and the one-project configuration on which the default selection fails |

How the model stands in for the environment:

- File existence is a parameter `existing: set<string>` of file names.
- The older version's `glob('*.ico')` result is a parameter `icons`.
- The time stamp is a parameter `ts`.
- The log file is a `seq<string>`, one element per write. In the current version an element is the line `log_change` writes, without its trailing newline. In the older version it is the record `switchProjectCB` writes, trailing newline included.
- The tray is a `Tray` value: catalog, current key, cached fallback image, image on show, log, running flag. Each handler maps one `Tray` to the next.
- Menu actions in the older version are a type parameter `A` standing for the callables, so the numbering and dispatch lemmas hold for any action.

Behaviour of the code worth noting:

- A log record is `<ts> -- changed <info>`, with angle brackets around the info.
- For a first project with at most one work-package, the default selection is that project's display NAME, not its id. See Findings.
- An icon file name goes through pathlib's `with_suffix`. A display name with a dot that is not its last character therefore loses everything from its last dot on: `v1.2` gives `myIcon_v1.ico`. A name ending in a dot has no suffix in pathlib's sense and is kept whole. The older version concatenates instead.

## Model

| member | source | states |
|---|---|---|
| Identifiers.Split | prj_pystray.py:217 | the pieces contain no dash, there is at least one, and joining them with dashes gives back the input |
| Identifiers.SplitJoin | prj_pystray.py:217 | splitting undoes joining for dash-free pieces: Split is a left inverse of Join |
| Identifiers.GetIdNameSpec | prj_pystray.py:215-219 | `GetIdName` yields as id the text before the first dash and as name the text after the last dash, neither holding a dash; a dash-free identifier gives id = name = the whole string, with no error |
| Identifiers.GetIdNameJoin | prj_pystray.py:215-219 | for dash-free pieces joined with dashes, the id is the first piece and the name the last |
| IconFiles.IconFileNameSpec | prj_pystray.py:15-19 | the file name starts with `myIcon_` and ends in `.ico`; between them stands the display name itself exactly when the name has no path suffix, otherwise the name cut just before its last dot |
| IconFiles.DottedNameLosesSuffix | prj_pystray.py:18-19 | the file looked up for a dotted name such as `v1.2` is `myIcon_v1.ico`, not `myIcon_v1.2.ico` |
| IconFiles.ImagePath | prj_pystray.py:15-23 | the path is returned exactly when that file exists, and then it is the icon file name of the display name |
| IconFiles.ListedIcon | main.py:216-218 | the candidate `myIcon_<name>.ico` is kept exactly when it is in the icon list, otherwise there is no icon |
| IconFiles.PlainIconNameInjective | main.py:216 | distinct display names give distinct concatenated icon file names |
| OrderedMap.Put | prj_pystray.py:169 | an existing key keeps its slot and gets the new value; a new key is appended at the end; no other slot changes |
| OrderedMap.Get | prj_pystray.py:96 | a lookup finds a value exactly when the key is present, and the value is the one stored in that key's slot |
| OrderedMap.FromPairsGet | prj_pystray.py:161-169 | after inserting a list of pairs, a key maps to v exactly when (k, v) is the last pair written for k |
| OrderedMap.FromPairsDistinct | prj_pystray.py:161-169 | when no key repeats, the dictionary holds exactly the given pairs in the given order |
| OrderedMap.FromPairsFirstOccurrenceOrder | prj_pystray.py:222-225 | the keys come out ordered by where each key first appears in the input |
| Catalog.MakeProjectSpec | prj_pystray.py:157-169 | the project `MakeProject` builds has distinct work-package ids, no more of them than input entries, and records only icon files that exist |
| Catalog.WorkPackageLastEntryWins | prj_pystray.py:161-169 | a work-package id maps to the name and icon built from the last input entry with that id |
| Catalog.BuildCatalogSpec | prj_pystray.py:222-225 | the catalog `BuildCatalog` builds has distinct project ids, each slot keyed by its project's own id, distinct work-package ids per project, only existing icon files, and no more slots than configuration entries |
| Catalog.BuildCatalogIds | prj_pystray.py:222-225 | the catalog's keys are exactly the ids of the configuration keys |
| Catalog.CatalogLastEntryWins | prj_pystray.py:222-225 | a project id maps to the project built from the last configuration entry with that id |
| Catalog.CatalogFirstOccurrenceOrder | prj_pystray.py:222-225 | projects are listed in the order their ids first appear in the configuration |
| Catalog.GetProject | prj_pystray.py:87-96 | the lookup succeeds exactly when the key's project id is in the catalog, and then yields the project stored under that id together with the key's wp, none for a bare key |
| Catalog.GetProjectBuilt | prj_pystray.py:87-96 | on a built catalog the lookup yields the project of the last configuration entry with the key's id, and fails exactly when no entry has that id |
| Catalog.WpIcon | prj_pystray.py:171-176 | a present work-package with an icon gives that icon; a present one without an icon, an absent key or no key gives the project's icon |
| Catalog.Label | prj_pystray.py:178-185 | the label starts with the project id; reading the rest back as `:` followed by a wp yields the given wp, or the first wp id when none is given; it is the bare id exactly when no wp is given and there are no work-packages |
| TrayMenu.MakeMenu | prj_pystray.py:43-85 | one entry per project in catalog order, titled by its name; it is a submenu exactly when the project has more than one work-package; then exactly one separator and one Quit action at the end |
| TrayMenu.ProjectEntryLeaves | prj_pystray.py:46-75 | a project contributes the keys (id, wp id) for every wp in slot order when it has more than one, else the bare id |
| TrayMenu.MenuOffersExactlySelectable | prj_pystray.py:46-75 | a key is offered by a radio entry of the menu exactly when it names a project and, for a multi-work-package project, one of its work-packages |
| TrayMenu.MenuKeysDistinct | prj_pystray.py:46-75 | no key is offered by two radio entries |
| Selection.Record | prj_pystray.py:137-146 | the info can be read back from the log record, and the record's length is the sum of its parts |
| Selection.DisplayIcon | prj_pystray.py:121-131 | the work-package's icon, else the project's icon, else the cached start-up image |
| Selection.ChangeProject | prj_pystray.py:116-134 | the selection becomes the new key, the image becomes the resolved icon, exactly one record with the key's label is appended, and nothing else changes |
| Selection.OnClick | prj_pystray.py:99-114 | clicking the current key changes nothing; otherwise exactly one record is appended; either way afterwards the clicked key and only it is selected |
| Selection.Quit | prj_pystray.py:149-154 | the tray stops and exactly one record `QUIT (<reason>)` is appended; catalog, selection, image on show and cached start-up image are unchanged |
| Selection.MenuQuitLogsMenuExit | prj_pystray.py:81-82 | activating the menu's last entry stops the tray with the reason `Menu Exit` |
| Selection.Startup | prj_pystray.py:26-41 | start-up fails with an unknown-project error when the default's project id is absent, and with a missing-icon error when no icon resolves for it; otherwise the tray shows the image resolved for the default, caches that same image as fallback, runs, and holds exactly one log record |
| Selection.DefaultKey | prj_pystray.py:228-233 | no default exists exactly for an empty catalog; the first project's first work-package is chosen exactly when that project has more than one, otherwise its display name as a bare key; the default agrees with the id-based one exactly when the catalog is empty, the first project has several work-packages, or its name equals its id |
| Selection.DefaultKeyResolves | prj_pystray.py:228-233 | a multi-work-package first project gives a selectable default; otherwise the default names a project exactly when the first project's name is also a project id |
| Selection.Launch | prj_pystray.py:222-237 | start-up from a configuration fails with no projects exactly when the catalog is empty, and with an unknown project whenever the default's id is absent; when the default's id is present, start-up succeeds exactly when the default resolves to an icon, and otherwise fails because the start-up image cannot be opened; a successful start selects the default on the built catalog, runs, and has logged one line |
| Selection.LaunchOutcome | prj_pystray.py:228-237 | start-up fails with no projects exactly for an empty catalog, and with an unknown project when the first project has at most one work-package and its name is no project id |
| Selection.IntendedDefaultSelectable | prj_pystray.py:228-233 | the default built from the first project's id is absent only for an empty catalog and always names a menu entry |
| Selection.IntendedLaunchResolves | prj_pystray.py:228-237 | with the corrected default, start-up fails only for want of projects or of a start-up icon |
| Selection.LaunchEstablishesInv | prj_pystray.py:222-241 | a successful start-up gives a tray whose catalog is well formed, whose selection names a project, whose image is the one that selection resolves to, and whose log holds one record |
| Selection.InvIconExists | prj_pystray.py:121-131 | a tray in that state shows only image files that exist |
| Selection.OnClickPreservesInv | prj_pystray.py:105-134 | clicks keep that state |
| Selection.QuitPreservesInv | prj_pystray.py:149-154 | quitting keeps that state |
| Selection.CheckedEntries | prj_pystray.py:99-103 | with `IsSelected` checking exactly the current key, one radio entry shows as checked exactly when the selection is offered by the menu, and none otherwise |
| Selection.ClickKeepsOneChecked | prj_pystray.py:99-114 | clicking any radio entry of the menu leaves exactly one entry checked |
| Selection.IntendedLaunchChecked | prj_pystray.py:228-241 | with the corrected default, start-up leaves exactly one radio entry checked |
| SysTray.NonStringIterable | main.py:175-181 | true exactly for a value that is iterable and not a string; callables and other values are not iterable |
| SysTray.AddIds | main.py:63-75 | the counter advances by one for every option visited, including dropped and submenu options |
| SysTray.AddIdsIncreasing | main.py:63-75 | ids come out strictly increasing in post-order, each a submenu after its children, all within the range the counter passed |
| SysTray.AddIdsSeparate | main.py:63-75 | leaf ids and submenu ids are disjoint and lie in the counter's range |
| SysTray.AddIdsActions | main.py:63-75 | the action table maps exactly the leaf ids, each to the action of its own leaf option |
| SysTray.AddIdsKeepsKnown | main.py:66-73 | the numbered tree without its ids is the input with every option of unknown kind dropped |
| SysTray.SetupQuitLast | main.py:34-38 | `Setup` appends the Quit option and numbers the tree from 1023: Quit comes last at top level with the id after all others, and the table maps it to `QUIT` |
| SysTray.CreateMenu | main.py:123-135 | walking the options backwards and inserting each at the front yields the items in their original order in front of the existing menu |
| SysTray.SetupMenuMirrors | main.py:123-135 | the native menu built from the numbered options mirrors their tree: registered ids become commands, the rest popups with their children |
| SysTray.Execute | main.py:168-173 | an id in the table runs: `QUIT` destroys the window, a callable is invoked; an id not in the table is an error |
| SysTray.SetupDispatch | main.py:163-173 | after set-up an id dispatches exactly when it is a leaf's id; a submenu id is unknown to the dispatcher |
| SysTray.SetupCallsSatisfy | main.py:34-38 | when every callable among the options has a property, every callable in the action table has it |
| LegacyOptions.ProjectOption | main.py:213-241 | entry text is the last dash segment and the logged project the first; more than one work-package gives a submenu with one entry per wp in order, exactly one gives a leaf with that wp's id, none gives a leaf with wp `Default`; a submenu and a work-package-less leaf show the project's listed icon, and a leaf's callback gets the leaf's icon |
| LegacyOptions.BuildOptions | main.py:212-242 | one option per configuration entry, in configuration order, each built from its own entry |
| LegacyOptions.MultiWpIconPrecedence | main.py:216-228 | in a submenu a work-package's listed icon wins, else the project's listed icon, else none |
| LegacyOptions.SingleWpIconPrecedence | main.py:230-238 | for a single-work-package project the project's listed icon wins, else the wp's listed icon, else none |
| LegacyOptions.PrecedenceReversed | main.py:219-238 | when both icons are listed and the names differ, the two cases pick different icons |
| LegacyOptions.BuildOptionsListed | main.py:212-242 | every icon the builder attaches is in the icon list |
| LegacyOptions.BuildOptionsKnown | main.py:212-242 | every option the builder produces is a callable or a submenu of callables, so numbering drops none |
| LegacyOptions.LegacyRecordRoundTrip | main.py:202 | project and wp can be read back from the older log record when the project contains no `>` |
| LegacyOptions.SwitchProject | main.py:200-210 | exactly one record, `<ts> - changed <prj>:<wp>` for every project id, is appended and becomes the hover text; its fields decode back whenever the id holds no `>`; the new icon is shown when listed, the fallback otherwise |
| LegacyOptions.LegacyClickShowsOptionIcon | main.py:168-173 | clicking a leaf id of the built menu shows the option's icon or the fallback and logs one record; any other id fails |
| LegacyOptions.Click | main.py:168-173 | an id missing from the table is an error; the `QUIT` id stops the tray and changes nothing else; a callable runs `switchProjectCB` with its own arguments; any other value is not callable |
| LegacyOptions.FirstClickFromStart | main.py:196-210 | the tray starts on the fallback image with an empty log; a first project click logs one line, which replaces the "No Project selected!" hover text |
| LegacyOptions.LegacyQuit | main.py:34-38 | the last top-level entry of the built menu carries the Quit id, and the action table maps that id to `QUIT` |
| Scenario.ScenarioCatalog | prj_pystray.py:222-225 | `100-Alpha` with `1-Setup` and `2-Build`, then `200-Beta`, gives the catalog Alpha (id 100, work-packages 1 and 2 in order) followed by Beta (id 200), for any set of existing files |
| Scenario.ScenarioMenu | prj_pystray.py:43-85 | that catalog's menu is an Alpha submenu with Setup and Build, a Beta entry, a separator and Quit |
| Scenario.ScenarioStartup | prj_pystray.py:26-41 | with only Alpha's icon present, start-up selects Alpha's first work-package, shows and caches Alpha's icon and logs the one line `100:1` |
| Scenario.ClicksFromStart | prj_pystray.py:105-154 | from that selection, clicking Beta, then Alpha/Build, then Quit shows Alpha's icon after each click (the fallback for Beta), appends `200`, `100:2` and `QUIT (Menu Exit)`, and stops |
| Scenario.ScenarioSession | prj_pystray.py:26-154 | the whole session writes exactly four log lines, in order: `100:1`, `200`, `100:2`, `QUIT (Menu Exit)` |
| Scenario.ScenarioNoIcons | prj_pystray.py:35-37 | with no icon file present, start-up fails because the start-up image cannot be opened |
| Scenario.DefaultNameCounterexample | prj_pystray.py:228-237 | for the configuration `{"100-Alpha": []}` with its icon present, start-up as written fails on project `Alpha`, while the corrected default starts with one `100` record |

## Left out

- The Win32 window class, message pump, `Shell_NotifyIcon`, `refresh_icon`, `show_menu`, `restart`, `destroy` and `prep_menu_icon` (main.py:44-61, 77-161). These are foreign calls and bitmap drawing. `create_menu` is modelled on icon file names; the bitmap conversion is not.
- The `notify` double-click path and `default_menu_index`. `_find_default_menu_option` (main.py:246-261) is left out too. It runs at start-up, and it returns `None` when it finds no option titled `StartUp`. Both the top-level call at main.py:261 and the recursive call at main.py:254 unpack that result into two names, which raises a `TypeError`. So the older tray does not start unless an option titled `StartUp` is reached before any submenu that lacks one, which rules out most configurations. The model describes the menu and clicks as if start-up had succeeded.
- pystray and PIL objects. An image is its file name. Opening an existing file is assumed to succeed. `Image.open(None)` at start-up is the `NoStartupIcon` error.
- Filesystem probing and `glob`: the set of existing names and the icon list are parameters. Path separators inside display names are not modelled, so a name is always a single path component.
- JSON loading, the default `projects.json` write, argparse and the exit(1) path. The configuration is taken as the mapping `json.load` returns. It is a list of entries with distinct keys whose values are lists of strings; other JSON shapes are not modelled.
- `datetime.now()` and `strftime`: the time stamp is a string parameter and its format is not checked.
- Console `print` output, including "No change" and "Icon fallback".
- Threads, `signal.signal`, `term_handler` and the KeyboardInterrupt path. The quit reasons `Menu Exit`, `SIGTERM` and `SIGINT` appear only as values of `QuitReason`. The signal handler's reads of the module-level globals `g_tray` and `tray`, and any race between a click and a signal, are out of scope.
- The `bye` callbacks of the older version. The first is never used; the second only prints.
- The two log formats are kept apart: the current version's lines are held without their newline, the older version's records and hover text with it.
- Option tuples in the older version that do not have three fields raise in Python. `MenuOption` always has three.

## Findings

| source | as written | input that shows it | evidently intended | confidence | as-written member | corrected member |
|---|---|---|---|---|---|---|
| prj_pystray.py:233 | a first project with at most one work-package makes its display name the default key; `get_project` then looks that up as a project id (prj_pystray.py:96) | configuration `{"100-Alpha": []}` with `myIcon_Alpha.ico` present: the catalog key is `100`, the default is `Alpha`, start-up raises KeyError | the default is `first_prj.id`, which always names the first menu entry | not executed | Scenario.DefaultNameCounterexample | Selection.IntendedDefaultSelectable |

`Selection.DefaultKey` and `Selection.Launch` model the start-up as written.
`Selection.IntendedDefaultKey` and `Selection.IntendedLaunch` use the corrected
default. `Selection.IntendedLaunchResolves` and `Selection.IntendedLaunchChecked`
prove that the corrected start-up never fails on an unknown project and leaves
exactly one entry checked.
