# trayicon-rs, modelled in Dafny

trayicon-rs is a cross-platform tray icon library. An application describes a
tray icon with a `TrayIconBuilder`, and its context menu with a `MenuBuilder`:
a tree of separators, items, checkable items and submenus, each item carrying
an application event. Each platform back end turns that tree into native menu
objects. Along the way it numbers the nodes and keeps a table from those
numbers back to the application events. The `TrayIcon` facade stores the
current builder and forwards changes to the back end.

This project models, one Dafny module per source file:

- the menu tree, its appenders, and the mutate-by-id search behind
  `set_checkable`, `set_disabled` and `get_checkable` (`MenuBuilders`). The
  search takes the first match at a level, and otherwise descends only into
  that level's first submenu;
- the three id-numbering schemes, each as written:
  - Linux (`LinuxMenu`): every node gets a pre-order id starting at 1;
  - Windows (`WindowsMenu`): only leaves are numbered, into one event map;
  - macOS (`MacMenu`): items, checkables and submenus with an id are
    numbered; every numbered node goes into `ids`, and only the clickable
    leaves go into the `menu_ids` table that the click target reads;
- the `com.canonical.dbusmenu` object, which serves a fixed two-level layout
  (`DbusMenus`);
- the `org.kde.StatusNotifierItem` object (`StatusNotifierItems`): its
  activation methods, which each send one event, its pixmap conversion and
  fallback square, and its property getters;
- the KDE icon decoder's choice of the largest ICO entry and its failure
  fallback (`KdeIcons`), and the RGBA to ARGB conversion both of these share
  (`Pixels`);
- the UTF-16 encoding and the fixed-buffer copy used for Win32 strings
  (`Wchars`);
- the tray icon facade (`TrayIcons`) and the tray icon builder
  (`TrayIconBuilders`), with the error enum (`Errors`), icons (`Icons`) and
  the event callback (`Sender`).

The Dafny model works as follows:

- Native menu objects (HMENU, NSMenu) are the sequence of entries appended
  to them.
- The application callback and the event channel are the logs of what was
  sent through them.
- The back end behind the facade is the log of calls it receives. What it
  answers is a parameter of each call.
- Loops in the source, and the objects whose fields it updates, are
  methods, proved equal to reference functions. What the source promises is
  then proved about those functions as lemmas. The one exception is the
  in-place mutate-by-id of the menu tree, which is a function on values (see
  "## Left out").

## Model

| member | source | states |
|---|---|---|
| MenuBuilders.MenuBuilder.With | src/menubuilder.rs:60-63 | one item is added at the end; the earlier items are unchanged |
| MenuBuilders.MenuBuilder.WithSeparator | src/menubuilder.rs:65-68 | one Separator is added at the end; the earlier items are unchanged |
| MenuBuilders.MenuBuilder.WithItem | src/menubuilder.rs:70-78 | one Item with the given name and id is added at the end, not disabled and without an icon; the earlier items are unchanged |
| MenuBuilders.MenuBuilder.WithCheckable | src/menubuilder.rs:80-89 | one Checkable with the given name, state and id is added at the end, not disabled and without an icon; the earlier items are unchanged |
| MenuBuilders.MenuBuilder.WithSubmenu | src/menubuilder.rs:91-100 | one Submenu is added at the end, holding the given children, with no id, not disabled and without an icon |
| MenuBuilders.MenuBuilder.When | src/menubuilder.rs:52-58 | no contract of its own: `when` applies the given function to the builder |
| MenuBuilders.New | src/menubuilder.rs:48-50 | no contract of its own: the builder with no items, the start of every test menu below |
| MenuBuilders.Matches | src/menubuilder.rs:174-179 | no contract of its own: the `find` predicate (an Item or Checkable with the id, or a Submenu whose id is Some of it); FirstMatch and Locate are stated in its terms |
| MenuBuilders.FirstMatch | src/menubuilder.rs:174-179 | the position of the first item of a level whose id is the one searched, or the level's length when none matches |
| MenuBuilders.FirstSubmenu | src/menubuilder.rs:185-188 | the position of the first Submenu of a level, or the level's length when there is none |
| MenuBuilders.Locate | src/menubuilder.rs:170-197 | a path that is found is valid and leads to an item carrying the id searched for |
| MenuBuilders.MutateItem | src/menubuilder.rs:163-197 | no contract of its own: mutate-by-id on values; its behaviour is stated by MenuBuilders.MutateItemAtLocate |
| MenuBuilders.SetCheckable | src/menubuilder.rs:126-135 | no contract of its own: its result and new tree are stated by MenuBuilders.SetCheckableSpec, SetCheckableSucceedsIff and SetCheckableIdempotent |
| MenuBuilders.SetDisabled | src/menubuilder.rs:140-156 | no contract of its own: its result and new tree are stated by MenuBuilders.SetDisabledSpec and SetDisabledIdempotent |
| MenuBuilders.GetCheckable | src/menubuilder.rs:110-124 | no contract of its own: the state of the located item when it is Checkable; tied to the probe by MenuBuilders.GetCheckableReadOnly and to set_checkable by GetAfterSetCheckable |
| MenuBuilders.Spine | src/menubuilder.rs:184-193 | the chain of first submenus starts at the menu itself |
| MenuBuilders.UpdateAt | src/menubuilder.rs:181-182 | replacing the item at a path keeps the number of top-level items |
| MenuBuilders.MutateItemAtLocate | src/menubuilder.rs:163-197 | mutate-by-id applies the mutation at the located path and returns its result; when the id is not located, it returns MenuItemNotFound and the tree is unchanged |
| MenuBuilders.UpdateAtSame | src/menubuilder.rs:181-182 | writing back the item already at a path leaves the tree unchanged |
| MenuBuilders.AtUpdateAt | src/menubuilder.rs:181-182 | after an item is replaced at a path, that path leads to the new item |
| MenuBuilders.FirstMatchAt | src/menubuilder.rs:174-179 | the first match is the unique position that matches and has no earlier match |
| MenuBuilders.FirstSubmenuAt | src/menubuilder.rs:185-188 | the first submenu is the unique position that is a Submenu and has no earlier Submenu |
| MenuBuilders.FirstMatchUpdate | src/menubuilder.rs:174-188 | replacing an item with one that has the same id and kind moves neither the first match nor the first submenu |
| MenuBuilders.LocateStable | src/menubuilder.rs:170-197 | a mutation that keeps the id and kind of the item changes the outcome of no later search |
| MenuBuilders.NotContainedNotFound | src/menubuilder.rs:181-196 | an id found nowhere in the tree gives MenuItemNotFound, with the tree unchanged |
| MenuBuilders.SpineMatchFound | src/menubuilder.rs:174-193 | a match on any level of the chain of first submenus is found, at that depth or above |
| MenuBuilders.LocatePathOnSpine | src/menubuilder.rs:174-193 | a path that is found runs down the first submenus; no level above the last has a match; it ends at the first match of its last level |
| MenuBuilders.LocateOnSpine | src/menubuilder.rs:174-195 | an id is found if and only if some level of the chain of first submenus holds it at that level; the levels above the found one hold no match |
| MenuBuilders.LocateDescends | src/menubuilder.rs:184-193 | with no match at a level, the search is exactly the search of that level's first submenu, with its position put in front of the path |
| MenuBuilders.SetCheckableSpec | src/menubuilder.rs:126-135 | when the located item is Checkable, only its is_checked is set and the result is Ok; otherwise the result is MenuItemNotFound and the tree is unchanged |
| MenuBuilders.SetDisabledSpec | src/menubuilder.rs:140-156 | the located item is never a Separator; only its disabled flag is set and the result is Ok; an id that is not found gives MenuItemNotFound and the tree is unchanged |
| MenuBuilders.GetCheckableReadOnly | src/menubuilder.rs:110-121 | the probe used by get_checkable leaves the tree unchanged, and it succeeds exactly when a state is returned |
| MenuBuilders.SetCheckableSucceedsIff | src/menubuilder.rs:110-135 | set_checkable succeeds if and only if get_checkable finds a state; its only error is MenuItemNotFound |
| MenuBuilders.GetAfterSetCheckable | src/menubuilder.rs:110-135 | after a successful set_checkable, get_checkable returns the state that was set |
| MenuBuilders.SetCheckableIdempotent | src/menubuilder.rs:126-135 | applying set_checkable twice gives the same result and tree as applying it once |
| MenuBuilders.SetDisabledIdempotent | src/menubuilder.rs:140-156 | applying set_disabled twice gives the same result and tree as applying it once |
| MenuBuilders.TestSubMenuItems | src/menubuilder.rs:231-235 | the test submenu built with the appenders is the literal submenu written out item by item |
| MenuBuilders.TestMenuItems | src/menubuilder.rs:219-250 | the test menu built with the appenders is the literal tree the other test lemmas use |
| MenuBuilders.TestItemsShape | src/menubuilder.rs:219-250 | the test menu has 8 top-level items: CheckItem1 at 5, the submenu at 6, DisabledItem1 at 7, and no submenu before 6 |
| MenuBuilders.TestItemsIds | src/menubuilder.rs:219-250 | in the test menu, no item before 5 carries CheckItem1, none before 7 carries DisabledItem1, and no top-level item carries CheckItem2 |
| MenuBuilders.TestItemsUpdate | src/menubuilder.rs:219-250 | in the test menu, replacing item 5, 7 or 6 gives the test menu with the other flag value |
| MenuBuilders.TestSubItemsShape | src/menubuilder.rs:219-250 | the test submenu has 4 items with CheckItem2 at 2, and setting that item gives the test submenu with the other state |
| MenuBuilders.TestSetCheckItem1 | src/menubuilder.rs:126-135 | set_checkable(CheckItem1) on the test menu succeeds and sets the top-level checkable |
| MenuBuilders.TestSetDisabledItem1 | src/menubuilder.rs:140-156 | set_disabled(DisabledItem1) on the test menu succeeds and sets that item's flag |
| MenuBuilders.TestSetCheckItem2 | src/menubuilder.rs:126-135 | set_checkable(CheckItem2) on the test menu succeeds and sets the checkable nested in the submenu |
| MenuBuilders.TestAtCheckItem2 | src/menubuilder.rs:219-250 | path [6, 2] of the test menu is valid and leads to CheckItem2 |
| MenuBuilders.TestUpdateCheckItem2 | src/menubuilder.rs:219-250 | replacing the item at path [6, 2] gives the test menu with the nested checkable's other state |
| MenuBuilders.TestLocateCheckItem2 | src/menubuilder.rs:170-197 | the search for CheckItem2 in the test menu finds path [6, 2] |
| MenuBuilders.TestTopLevelSearch | src/menubuilder.rs:174-188 | at the top level of the test menu, CheckItem2 does not match; the first submenu is at 6 |
| MenuBuilders.TestSubLevelSearch | src/menubuilder.rs:174-179 | inside the test submenu, CheckItem2 is found at 2 |
| MenuBuilders.TestMenuMutation | src/menubuilder.rs:219-250 | the unit test: set_checkable(CheckItem1), set_disabled(DisabledItem1) and set_checkable(CheckItem2) on menu_builder(false, false) all succeed and give menu_builder(true, true) |
| MenuBuilders.LaterSubmenuNotSearched | src/menubuilder.rs:184-195 | an id that exists only in a second submenu is not found: set_checkable gives MenuItemNotFound with the tree unchanged, and get_checkable gives None |
| MenuBuilders.LevelMatchBeforeNested | src/menubuilder.rs:174-182 | a match at the current level is chosen before a match nested deeper; when it is not Checkable, set_checkable fails even though a nested Checkable carries the id |
| TrayIconBuilders.TrayIconBuilder.WithSender | src/trayiconbuilder.rs:74-77 | the sender is set; every other field is unchanged |
| TrayIconBuilders.TrayIconBuilder.Title | src/trayiconbuilder.rs:82-85 | the title is set; every other field is unchanged |
| TrayIconBuilders.TrayIconBuilder.Tooltip | src/trayiconbuilder.rs:87-90 | the tooltip is set; every other field is unchanged |
| TrayIconBuilders.TrayIconBuilder.OnClick | src/trayiconbuilder.rs:95-98 | the click event is set; every other field is unchanged |
| TrayIconBuilders.TrayIconBuilder.OnDoubleClick | src/trayiconbuilder.rs:103-106 | the double-click event is set; every other field is unchanged |
| TrayIconBuilders.TrayIconBuilder.OnRightClick | src/trayiconbuilder.rs:113-116 | the right-click event is set; every other field is unchanged |
| TrayIconBuilders.TrayIconBuilder.WithIcon | src/trayiconbuilder.rs:118-121 | the icon becomes Ok(icon), replacing any earlier error; every other field is unchanged |
| TrayIconBuilders.TrayIconBuilder.IconFromBuffer | src/trayiconbuilder.rs:123-126 | the icon is Ok, holding the buffer, exactly when the platform accepts the buffer; otherwise it is the platform's error; every other field is unchanged |
| TrayIconBuilders.TrayIconBuilder.Menu | src/trayiconbuilder.rs:128-134 | the menu is set; every other field is unchanged |
| TrayIconBuilders.TrayIconBuilder.ItemIsMenu | src/trayiconbuilder.rs:143-146 | item_is_menu is set; every other field is unchanged |
| TrayIconBuilders.TrayIconBuilder.When | src/trayiconbuilder.rs:67-72 | no contract of its own: `when` applies the given function to the builder |
| TrayIconBuilders.New | src/trayiconbuilder.rs:52-64 | the icon is Err(IconMissing), every optional field is None, and item_is_menu is false |
| TrayIconBuilders.SettersOverwrite | src/trayiconbuilder.rs:82-146 | a later call of the same setter overwrites an earlier one |
| TrayIconBuilders.SettersCommute | src/trayiconbuilder.rs:82-146 | setters of different fields commute |
| Icons.FromBuffer | src/icon.rs:17-26 | the icon holds the buffer when the platform decoder accepts it; otherwise the decoder's error is returned |
| Sender.TrayIconSender.Send | src/trayiconsender.rs:23-25 | the callback receives exactly one more event, the one sent |
| Ints.AsI32 | src/sys/linux/mod.rs:131 | `as i32` on an unsigned value: equal to it up to I32_MAX, and congruent to it modulo 2^32 |
| LinuxMenu.NewMenuSys | src/sys/linux/mod.rs:35-40 | MenuSys::new succeeds, with no items and no event sender |
| LinuxMenu.NodeCount | src/sys/linux/mod.rs:130 | every node, separators included, takes at least one number |
| LinuxMenu.ConvertMenuItem | src/sys/linux/mod.rs:126-195 | converting a node succeeds, gives the reference conversion at the current counter, and advances the counter by the node's size |
| LinuxMenu.BuildMenuInner | src/sys/linux/mod.rs:112-124 | a level's items are converted in order at the running counter, and the counter advances by the level's node count |
| LinuxMenu.Converted | src/sys/linux/mod.rs:126-195 | no contract of its own: the reference conversion of one node at a counter; stated by LinuxMenu.ConvertedCorresponds, ConvertedIds and CountConverted |
| LinuxMenu.ConvertedSeq | src/sys/linux/mod.rs:112-124 | no contract of its own: the reference conversion of a level, the counter threading through it; stated by LinuxMenu.ConvertedSeqCorresponds and ConvertedSeqIds |
| LinuxMenu.BuildMenu | src/sys/linux/mod.rs:100-106 | build_menu never fails, and gives the reference conversion from counter 0 |
| LinuxMenu.CounterIds | src/sys/linux/mod.rs:130-131 | the ids the counter hands out from j: j+1, j+2, and so on, each cast to i32 |
| LinuxMenu.CounterIdsSplit | src/sys/linux/mod.rs:178-182 | numbering two runs one after the other is numbering their concatenation |
| LinuxMenu.ConvertedIds | src/sys/linux/mod.rs:130-193 | a node's ids in pre-order, its own first, then its children's, are the next consecutive counter values |
| LinuxMenu.ConvertedSeqIds | src/sys/linux/mod.rs:178-182 | the ids of a run of siblings, in pre-order, are consecutive counter values |
| LinuxMenu.BuildMenuIds | src/sys/linux/mod.rs:100-193 | the ids of the built menu, in pre-order, are 1, 2, ... up to the node count; below 2^31 nodes they are i+1 and strictly increasing, so unique |
| LinuxMenu.ConvertedCorresponds | src/sys/linux/mod.rs:133-193 | each output node has the label, flags and event of its source node: a separator has an empty label, no event, and is neither checkable, checked nor disabled; event_id is Some only for Item and Checkable; children keep their count and order |
| LinuxMenu.ConvertedSeqCorresponds | src/sys/linux/mod.rs:118-121 | the output level has as many nodes as the input level, and each corresponds to its source item |
| LinuxMenu.CountConverted | src/sys/linux/mod.rs:178-182 | the nodes of the output tree are as many as the nodes of the input tree |
| LinuxMenu.AppendedCount | src/sys/linux/mod.rs:118-121 | appending one item adds that item's node count |
| LinuxMenu.SubSubMenuCount | src/sys/linux/mod.rs:214-258 | the test's innermost submenu has 3 nodes |
| LinuxMenu.SubMenuCount | src/sys/linux/mod.rs:214-258 | the test's submenu has 8 nodes |
| LinuxMenu.TestMenuBuild | src/sys/linux/mod.rs:214-258 | the test menu has 11 nodes, and the built tree holds 11 |
| WindowsMenu.WinHMenu.Append | src/sys/windows/mod.rs:75-107 | one entry is appended to the native menu |
| WindowsMenu.AddItem | src/sys/windows/mod.rs:74-107 | one item: the counter advances by its leaf count, its leaves are numbered into the map, and its entry is appended |
| WindowsMenu.BuildMenuInner | src/sys/windows/mod.rs:68-114 | the event map numbers the level's leaves from the running counter; the native menu is the reference menu; the counter advances by the leaf count |
| WindowsMenu.BuildMenu | src/sys/windows/mod.rs:56-62 | build_menu never fails and numbers the leaves from 1 |
| WindowsMenu.HMenuStep | src/sys/windows/mod.rs:74-107 | one more item: its leaves and its entry come after those of the earlier items |
| WindowsMenu.Range | src/sys/windows/mod.rs:81-105 | the numbers after j: j+1, j+2, and so on |
| WindowsMenu.RangeSplit | src/sys/windows/mod.rs:81-105 | two runs of numbers one after the other are one run |
| WindowsMenu.HMenuIds | src/sys/windows/mod.rs:68-114 | the ids in the native menu, in pre-order across nested menus, are consecutive from the counter; separators and child menus take none |
| WindowsMenu.ItemIds | src/sys/windows/mod.rs:75-107 | the ids in one item's entry are consecutive, as many as its leaves |
| WindowsMenu.BuildMenuSpec | src/sys/windows/mod.rs:56-114 | the event map has exactly one entry per leaf; the menu's ids are 1 to k in pre-order; each id maps to its leaf's event |
| WindowsMenu.BuildTrayIcon | src/sys/windows/mod.rs:28-53 | an icon error is returned first, then SenderMissing, then the window's error; on success the window holds the sender, the built menu, the icon and the click events |
| WindowsMenu.AppendedLeaves | src/sys/windows/mod.rs:74-107 | appending one item adds that item's leaves |
| WindowsMenu.SubSubMenuLeaves | src/sys/windows/mod.rs:139-165 | the test's innermost child menu has 3 leaves |
| WindowsMenu.SubMenuLeaves | src/sys/windows/mod.rs:139-165 | the test's child menu has 7 leaves |
| WindowsMenu.TestMenuBuild | src/sys/windows/mod.rs:139-165 | the test menu produces exactly 9 events |
| MacMenu.MenuIdTable.Insert | src/sys/macos/menu.rs:181-184 | the table gains the tag with its event; the other entries are unchanged |
| MacMenu.MenuIdTable.constructor | src/sys/macos/menu.rs:82 | the shared table starts empty |
| MacMenu.MenuTarget.constructor | src/sys/macos/menu.rs:37-55 | the target holds the sender and the shared table |
| MacMenu.MenuTarget.MenuItemClicked | src/sys/macos/menu.rs:41-46 | a click sends an event exactly when the tag is in the table, and the event sent is the one stored under the tag |
| MacMenu.NSMenu.AddItem | src/sys/macos/menu.rs:144 | one entry is added to the native menu |
| MacMenu.EventsOf | src/sys/macos/menu.rs:123 | the events of the numbered nodes, in order |
| MacMenu.BuildMenuInner | src/sys/macos/menu.rs:95-233 | the level's ids map and native menu are the reference ones; the shared table gains exactly the clickable nodes; the counter advances by the number of numbered nodes |
| MacMenu.AddItem | src/sys/macos/menu.rs:113-224 | one item: its nodes are numbered into ids, its clickable nodes into the shared table, and its entry is added |
| MacMenu.BuildMenu | src/sys/macos/menu.rs:77-92 | build_menu succeeds with a fresh table, shared by a fresh target that holds the sender; the counter starts at 0 |
| MacMenu.NodesStep | src/sys/macos/menu.rs:112-224 | one more item: its nodes and its entry come after those of the items before it |
| MacMenu.ClickableAppend | src/sys/macos/menu.rs:181-184 | filling the table for two runs of nodes one after the other merges their entries |
| MacMenu.ItemNumbers | src/sys/macos/menu.rs:127 | the maps of the earlier items and of one more item combine as the loop extends them |
| MacMenu.LeafNumbers | src/sys/macos/menu.rs:156-157 | an Item or Checkable takes the next number in both maps |
| MacMenu.NoNumbers | src/sys/macos/menu.rs:220-223 | a separator takes no number |
| MacMenu.SubmenuNumbers | src/sys/macos/menu.rs:121-127 | a submenu numbered before its children, in ids only, gives the pre-order numbering of its nodes |
| MacMenu.OwnIds | src/sys/macos/menu.rs:121-124 | a submenu with an id is inserted into ids before its children's numbers are merged in |
| MacMenu.OwnNotClickable | src/sys/macos/menu.rs:121-124 | a submenu's own number never enters the shared table |
| MacMenu.ClickableAt | src/sys/macos/menu.rs:181-184 | the table's keys are exactly the numbers of the clickable nodes, and each holds that node's event |
| MacMenu.BuildMenuMaps | src/sys/macos/menu.rs:81-233 | ids holds exactly the numbers 1 to n, in pre-order; the shared table holds exactly the numbered nodes that are clickable, with the same event as ids, so a Submenu id is in ids and never in the table |
| MacMenu.ClickableNumbersAppend | src/sys/macos/menu.rs:173-207 | the clickable numbers of two runs of nodes are those of the first run, then those of the second |
| MacMenu.ClickableNumbersKeys | src/sys/macos/menu.rs:181-184 | the clickable numbers are exactly the keys of the shared table |
| MacMenu.MenuTags | src/sys/macos/menu.rs:173-207 | the tags of the action entries of a native menu, in order and at any depth, are the numbers of its clickable nodes |
| MacMenu.ItemTags | src/sys/macos/menu.rs:114-223 | the tags under one item's entry are the numbers of its clickable nodes |
| MacMenu.ClickableEntries | src/sys/macos/menu.rs:41-46 | every action entry's tag is a key of the shared table, and every key is the tag of some entry |
| MacMenu.EntryCorresponds | src/sys/macos/menu.rs:114-223 | each entry has its item's title, is enabled exactly when the item is not disabled, and carries state 1 or 0 for a Checkable; a submenu entry has no action and corresponds child by child |
| MacMenu.MenuCorresponds | src/sys/macos/menu.rs:112-224 | the native menu has one entry per item, in order, each corresponding to its item |
| DbusMenus.DbusMenu.GetLayout | src/sys/linux/dbus/canonical_dbus_menu.rs:28-190 | the layout succeeds exactly for parent 0 and parent 4, with revision 0, that id and no properties; any other parent gives InvalidArgs("parentId not found") |
| DbusMenus.DbusMenu.GetGroupProperties | src/sys/linux/dbus/canonical_dbus_menu.rs:192-198 | an empty list, whatever is asked |
| DbusMenus.DbusMenu.GetProperty | src/sys/linux/dbus/canonical_dbus_menu.rs:200-205 | always fails, with a message naming the property and the decimal id |
| DbusMenus.DbusMenu.Event | src/sys/linux/dbus/canonical_dbus_menu.rs:207-223 | always Ok |
| DbusMenus.DbusMenu.EventGroup | src/sys/linux/dbus/canonical_dbus_menu.rs:225-231 | an empty list of unknown ids |
| DbusMenus.DbusMenu.AboutToShow | src/sys/linux/dbus/canonical_dbus_menu.rs:233-235 | false: no update is needed |
| DbusMenus.DbusMenu.AboutToShowGroup | src/sys/linux/dbus/canonical_dbus_menu.rs:237-239 | two empty lists |
| DbusMenus.DbusMenu.Version | src/sys/linux/dbus/canonical_dbus_menu.rs:242-245 | version 3 |
| DbusMenus.DbusMenu.TextDirection | src/sys/linux/dbus/canonical_dbus_menu.rs:247-250 | "ltr" |
| DbusMenus.DbusMenu.Status | src/sys/linux/dbus/canonical_dbus_menu.rs:252-255 | "normal" |
| DbusMenus.DbusMenu.IconThemePath | src/sys/linux/dbus/canonical_dbus_menu.rs:257-260 | an empty list |
| DbusMenus.New | src/sys/linux/dbus/canonical_dbus_menu.rs:20-22 | no contract of its own: the unit value; every method of it answers as stated above |
| DbusMenus.DigitChar | src/sys/linux/dbus/canonical_dbus_menu.rs:201-204 | the decimal digit character for a value below 10 |
| DbusMenus.DecimalDigits | src/sys/linux/dbus/canonical_dbus_menu.rs:201-204 | the digits of a number are at least one decimal digit, with no leading zero |
| DbusMenus.DecimalDigitsValue | src/sys/linux/dbus/canonical_dbus_menu.rs:201-204 | reading the printed digits back gives the number |
| DbusMenus.DecimalRoundTrip | src/sys/linux/dbus/canonical_dbus_menu.rs:201-204 | the id printed in the message, sign included, reads back as the same id |
| DbusMenus.RootLayout | src/sys/linux/dbus/canonical_dbus_menu.rs:35-147 | get_layout(0) gives revision 0 and id 0, no properties, and children 1, 2, 4, 3 in that order |
| DbusMenus.RootIds | src/sys/linux/dbus/canonical_dbus_menu.rs:35-147 | the ids of the whole root layout in pre-order are 1, 2, 4, 10, 11, 3, all distinct |
| DbusMenus.RootDescendants | src/sys/linux/dbus/canonical_dbus_menu.rs:35-147 | the nodes below the root in pre-order are the two checkables, the submenu, its two options, and Quit |
| DbusMenus.SnocOne | src/sys/linux/dbus/canonical_dbus_menu.rs:35-147 | a childless node is its own only descendant |
| DbusMenus.DescendantsSnoc | src/sys/linux/dbus/canonical_dbus_menu.rs:35-147 | one more child adds that child and its descendants at the end |
| DbusMenus.SubmenuLayoutAgrees | src/sys/linux/dbus/canonical_dbus_menu.rs:148-184 | get_layout(4) gives revision 0, id 4 and children 10 and 11, the same children as node 4 in the root layout |
| DbusMenus.UnknownParentRefused | src/sys/linux/dbus/canonical_dbus_menu.rs:185-189 | any parent other than 0 or 4 fails with InvalidArgs("parentId not found") |
| DbusMenus.LayoutIgnoresFilters | src/sys/linux/dbus/canonical_dbus_menu.rs:28-33 | the answer does not depend on the recursion depth or on the property names |
| DbusMenus.ToggleStates | src/sys/linux/dbus/canonical_dbus_menu.rs:42-69 | node 1 is a checkbox with state 1; node 2 is a checkbox with state 0 |
| DbusMenus.ChildrenDisplayOnParents | src/sys/linux/dbus/canonical_dbus_menu.rs:107-110 | a node has children-display exactly when it has children, which is node 4 alone |
| DbusMenus.EveryItemLabelled | src/sys/linux/dbus/canonical_dbus_menu.rs:35-147 | every node of the layout has a string label |
| Pixels.ArgbLength | src/sys/linux/dbus/status_notifier_item.rs:130-138 | the output is four bytes per full chunk: 4 * floor(len / 4) |
| Pixels.ArgbChunk | src/sys/linux/dbus/status_notifier_item.rs:131-137 | output chunk c is input chunk c [r, g, b, a] reordered as [a, r, g, b] |
| Pixels.ArgbRoundTrip | src/sys/linux/dbus/status_notifier_item.rs:130-138 | converting back recovers the input up to its last full chunk, so only the partial tail is lost |
| Pixels.ArgbStep | src/sys/linux/dbus/status_notifier_item.rs:131-137 | a full chunk at position i contributes its reordered bytes, then the rest follows |
| Pixels.ConvertRgbaToArgb | src/sys/linux/dbus/status_notifier_item.rs:130-138 | the chunk loop computes the reference conversion |
| StatusNotifierItems.FallbackPixelsShape | src/sys/linux/dbus/status_notifier_item.rs:147-157 | n fallback pixels are 4n bytes, each pixel [255, 255, 100, 100] |
| StatusNotifierItems.PixmapSpec | src/sys/linux/dbus/status_notifier_item.rs:120-160 | with a buffer: the stored size cast to i32, length 4 * floor(len / 4), every full chunk reordered, and the input recoverable; without one: 24 by 24, 2304 bytes, every pixel [255, 255, 100, 100] |
| StatusNotifierItems.BuildFallbackPixmap | src/sys/linux/dbus/status_notifier_item.rs:144-159 | the nested row and column loops produce 576 fallback pixels |
| StatusNotifierItems.StatusNotifierItemImpl.Push | src/sys/linux/dbus/status_notifier_item.rs:38-77 | the channel gains exactly the event; the icon and tooltip are unchanged |
| StatusNotifierItems.StatusNotifierItemImpl.constructor | src/sys/linux/dbus/status_notifier_item.rs:28-33 | the item holds the given id, channel, icon state and tooltip |
| StatusNotifierItems.StatusNotifierItemImpl.Activate | src/sys/linux/dbus/status_notifier_item.rs:38-43 | Ok, and exactly one Activate(x, y) is sent |
| StatusNotifierItems.StatusNotifierItemImpl.ContextMenu | src/sys/linux/dbus/status_notifier_item.rs:46-51 | Ok, and exactly one ContextMenu(x, y) is sent |
| StatusNotifierItems.StatusNotifierItemImpl.ProvideXdgActivationToken | src/sys/linux/dbus/status_notifier_item.rs:54-61 | Ok, and exactly one ProvideXdgActivationToken(token) is sent |
| StatusNotifierItems.StatusNotifierItemImpl.Scroll | src/sys/linux/dbus/status_notifier_item.rs:64-69 | Ok, and exactly one Scroll(delta, orientation) is sent |
| StatusNotifierItems.StatusNotifierItemImpl.SecondaryActivate | src/sys/linux/dbus/status_notifier_item.rs:72-77 | Ok, and exactly one SecondaryActivate(x, y) is sent |
| StatusNotifierItems.StatusNotifierItemImpl.IconName | src/sys/linux/dbus/status_notifier_item.rs:106-116 | "" exactly when a buffer is present, "application-x-executable" otherwise |
| StatusNotifierItems.StatusNotifierItemImpl.IconPixmap | src/sys/linux/dbus/status_notifier_item.rs:120-160 | a single entry: the converted buffer, or the fallback square |
| StatusNotifierItems.StatusNotifierItemImpl.ToolTip | src/sys/linux/dbus/status_notifier_item.rs:219-224 | ("", [], tooltip, "") with the stored tooltip |
| StatusNotifierItems.ConstantProperties | src/sys/linux/dbus/status_notifier_item.rs:164-230 | id is the stored id; menu "/MenuBar", status "Active", title "Example App", category "ApplicationStatus", item_is_menu false, window id 0, overlay "help-about", the rest empty |
| StatusNotifierItems.StatusNotifierItemImpl.Id | src/sys/linux/dbus/status_notifier_item.rs:170-173 | no contract of its own: the stored id, as stated by StatusNotifierItems.ConstantProperties |
| StatusNotifierItems.StatusNotifierItemImpl.Menu | src/sys/linux/dbus/status_notifier_item.rs:183-189 | no contract of its own: the object path "/MenuBar" (its conversion never fails, so the UnknownProperty branch is not modelled), as stated by StatusNotifierItems.ConstantProperties |
| StatusNotifierItems.StatusNotifierItemImpl.Status | src/sys/linux/dbus/status_notifier_item.rs:205-208 | no contract of its own: "Active", as stated by StatusNotifierItems.ConstantProperties |
| StatusNotifierItems.StatusNotifierItemImpl.Title | src/sys/linux/dbus/status_notifier_item.rs:212-214 | no contract of its own: "Example App", as stated by StatusNotifierItems.ConstantProperties |
| StatusNotifierItems.StatusNotifierItemImpl.Category | src/sys/linux/dbus/status_notifier_item.rs:99-102 | no contract of its own: "ApplicationStatus", as stated by StatusNotifierItems.ConstantProperties |
| StatusNotifierItems.StatusNotifierItemImpl.ItemIsMenu | src/sys/linux/dbus/status_notifier_item.rs:177-179 | no contract of its own: false, as stated by StatusNotifierItems.ConstantProperties |
| StatusNotifierItems.StatusNotifierItemImpl.WindowId | src/sys/linux/dbus/status_notifier_item.rs:228-230 | no contract of its own: 0, as stated by StatusNotifierItems.ConstantProperties |
| StatusNotifierItems.StatusNotifierItemImpl.OverlayIconName | src/sys/linux/dbus/status_notifier_item.rs:193-195 | no contract of its own: "help-about", as stated by StatusNotifierItems.ConstantProperties |
| StatusNotifierItems.StatusNotifierItemImpl.IconThemePath | src/sys/linux/dbus/status_notifier_item.rs:164-166 | no contract of its own: "", as stated by StatusNotifierItems.ConstantProperties |
| StatusNotifierItems.StatusNotifierItemImpl.AttentionIconName | src/sys/linux/dbus/status_notifier_item.rs:81-83 | no contract of its own: "", as stated by StatusNotifierItems.ConstantProperties |
| StatusNotifierItems.StatusNotifierItemImpl.AttentionMovieName | src/sys/linux/dbus/status_notifier_item.rs:93-95 | no contract of its own: "", as stated by StatusNotifierItems.ConstantProperties |
| StatusNotifierItems.StatusNotifierItemImpl.AttentionIconPixmap | src/sys/linux/dbus/status_notifier_item.rs:87-89 | no contract of its own: no pixmaps, as stated by StatusNotifierItems.ConstantProperties |
| StatusNotifierItems.StatusNotifierItemImpl.OverlayIconPixmap | src/sys/linux/dbus/status_notifier_item.rs:199-201 | no contract of its own: no pixmaps, as stated by StatusNotifierItems.ConstantProperties |
| KdeIcons.MaxByArea | src/sys/linux/kdeicon.rs:23-27 | no entry exactly for an empty directory; otherwise an entry of largest width times height, with no later entry as large |
| KdeIcons.LastMaxUnique | src/sys/linux/kdeicon.rs:23-27 | at most one entry is the last largest |
| KdeIcons.FromBuffer | src/sys/linux/kdeicon.rs:13-68 | always Ok, with the icon the reference decoding gives |
| KdeIcons.DecodedSpec | src/sys/linux/kdeicon.rs:23-60 | a read error, an empty directory or a decode error gives 0 by 0 with no pixels; otherwise the size of the largest entry's decoded image and its pixels converted to ARGB per full chunk |
| Wchars.EncodeChar | src/sys/windows/wchar.rs:12 | one or two UTF-16 units per scalar value |
| Wchars.DecodeChar | src/sys/windows/wchar.rs:12 | the units of one scalar value decode back to it, followed by the rest |
| Wchars.Utf16RoundTrip | src/sys/windows/wchar.rs:12 | decoding undoes the UTF-16 encoding |
| Wchars.Utf16Append | src/sys/windows/wchar.rs:12 | the encoding of a concatenation is the concatenation of the encodings |
| Wchars.Utf16Ascii | src/sys/windows/wchar.rs:12 | below 0x80, each character is one unit equal to its code |
| Wchars.Wchar | src/sys/windows/wchar.rs:11-13 | the UTF-16 units followed by one 0 unit; the units before the 0 decode back to the string |
| Wchars.CopiedUnits | src/sys/windows/wchar.rs:22 | the number of units kept is the smaller of the encoding's length and one less than the buffer |
| Wchars.WcharArray | src/sys/windows/wchar.rs:18-28 | the buffer becomes the kept units, then 0, then its old contents; a buffer of at least one unit is required |
| Wchars.FilledAt | src/sys/windows/wchar.rs:18-28 | position by position: a unit of the encoding before k, 0 at k, the old contents after |
| Wchars.FilledSpec | src/sys/windows/wchar.rs:18-28 | the length is kept; dst[0..k] is the first k units; dst[k] is 0; everything after k is unchanged |
| Wchars.FilledFits | src/sys/windows/wchar.rs:18-28 | when the encoding fits, the buffer starts with wchar(s), and the string reads back |
| Wchars.Utf16AsciiCons | src/sys/windows/wchar.rs:12 | a string starting below 0x80 encodes to that code, then the rest |
| Wchars.AsciiPrefix4 | src/sys/windows/wchar.rs:12 | the first four units of a string whose first four characters are below 0x80 |
| Wchars.HelloPrefix | src/sys/windows/wchar.rs:35-42 | the first four units of "HELLO WORLD" |
| Wchars.TestWcharTooLong | src/sys/windows/wchar.rs:35-42 | "HELLO WORLD" into [99; 5] gives [72, 69, 76, 76, 0] |
| Wchars.TestWcharTooShort | src/sys/windows/wchar.rs:43-49 | "HI!" into [99; 5] gives [72, 73, 33, 0, 99] |
| Wchars.TestWcharEmpty | src/sys/windows/wchar.rs:50-56 | "" into [99; 5] gives [0, 99, 99, 99, 99] |
| Wchars.TruncationSplitsSurrogates | src/sys/windows/wchar.rs:22 | truncation counts units: a character outside the Basic Multilingual Plane can be cut after its high surrogate, leaving a buffer that does not decode |
| TrayIcons.DefaultSetStatus | src/lib.rs:79-81 | the default set_status succeeds |
| TrayIcons.DefaultGetXdgActivationToken | src/lib.rs:85-87 | the default activation token is None |
| TrayIcons.TrayIcon.constructor | src/trayicon.rs:17-19 | the icon holds the builder it was built from, and no back-end call has been made |
| TrayIcons.TrayIcon.SetIcon | src/trayicon.rs:22-28 | an icon with an equal buffer gives Ok and changes nothing; otherwise the stored icon is replaced, then the back end is called once and its answer is returned |
| TrayIcons.TrayIcon.SetMenu | src/trayicon.rs:36-42 | an equal menu gives Ok and changes nothing; otherwise the stored menu is replaced, then the back end is called once and its answer is returned |
| TrayIcons.TrayIcon.SetTooltip | src/trayicon.rs:45-51 | an equal tooltip gives Ok and changes nothing; otherwise the stored tooltip is replaced, then the back end is called once and its answer is returned |
| TrayIcons.TrayIcon.SetMenuItemDisabled | src/trayicon.rs:58-64 | always Ok; with no menu nothing changes; with one, the stored menu is mutated and set_menu is called exactly once, found or not |
| TrayIcons.TrayIcon.SetMenuItemCheckable | src/trayicon.rs:71-77 | always Ok; with no menu nothing changes; with one, the stored menu is mutated and set_menu is called exactly once, found or not |
| TrayIcons.TrayIcon.GetMenuItemCheckable | src/trayicon.rs:84-90 | None with no menu; otherwise the menu's get_checkable result |
| TrayIcons.TrayIcon.ShowMenu | src/trayicon.rs:95-97 | forwarded: one call, and the back end's answer |
| TrayIcons.TrayIcon.SetStatus | src/trayicon.rs:107-109 | forwarded: one call, and the back end's answer |
| TrayIcons.TrayIcon.GetXdgActivationToken | src/trayicon.rs:112-114 | forwarded: one call, and the back end's answer |
| TrayIcons.SetTooltipTwice | src/trayicon.rs:45-51 | setting the same tooltip twice reaches the back end at most once, and the second call returns Ok |
| TrayIcons.SetIconTwice | src/trayicon.rs:22-28 | setting the same icon twice reaches the back end at most once, and the second call returns Ok |
| TrayIcons.CheckThenGet | src/trayicon.rs:71-90 | after set_menu_item_checkable finds the item, get_menu_item_checkable returns the state that was set |

## Left out

- Win32, Cocoa and D-Bus plumbing are not modelled: window procedures,
  notify icons, the AppendMenuW and NSMenuItem calls, icon handles, the
  D-Bus connection and its object registration. Native menus are the
  sequences of entries appended to them.
- `rebind_menu_items` and `MacMenu::update_sender` in src/sys/macos/menu.rs
  are not modelled.
- The D-Bus signals are not modelled: the status item's `new_*` signals, and
  the menu's `items_properties_updated` and `layout_updated`.
- Console output (`println!`, `eprintln!`) is not modelled.
- Threads, channels and locks: the forwarding thread is left out, and
  channels and callbacks are logs of what was sent. Every lock is taken to
  succeed. The poisoned-lock branches of `icon_name` and `icon_pixmap`, which
  fall back to the theme icon and the fallback square, are not modelled.
- ICO parsing and PNG/BMP decoding are done by the `ico` crate. They are
  abstracted as the `IconDirRead` parameter of `KdeIcons.FromBuffer`: the
  entries with their stated sizes, and what decoding each one gives. The
  platform icon decoder behind `Icon::from_buffer` is likewise a parameter.
- The `menu` property of the status item converts "/MenuBar" into an object
  path. That conversion cannot fail for this constant, so its error path is
  not modelled.
- `MenuBuilders.SetCheckable`, `MenuBuilders.SetDisabled` and
  `MenuBuilders.GetCheckable`: mutate-by-id is modelled on values, as a
  function returning the result and the new tree. The in-place update through
  `&mut` is not modelled; the model's tree is the state after the call.
- `TrayIcons.TrayIcon.SetMenuItemDisabled` and
  `TrayIcons.TrayIcon.SetMenuItemCheckable`: the back end's answer to the
  `set_menu` call is dropped, as in the source, so the `answer` parameter is
  unused.
- Linux `build_trayicon` and `KdeTrayIconImpl` are not part of this model.
  The latter's methods are stubs.
- `MacMenu.BuildMenuInner`: the counter is unbounded. `usize` overflow and
  the `*j as isize` cast of the tag are not modelled, because no menu comes
  near 2^63 nodes.
- `WindowsMenu.BuildMenuInner`: the counter is unbounded, and `usize`
  overflow is not modelled, for the same reason.
- `LinuxMenu.BuildMenuIds`: the `*j as i32` cast is modelled by
  `Ints.AsI32`. Uniqueness of the ids is stated only below 2^31 nodes,
  because beyond that the cast wraps and the ids repeat.
- The search behind mutate-by-id is not a full depth-first search. It takes
  the first match of a level, and otherwise searches only that level's first
  submenu. The model follows the code: `MenuBuilders.LaterSubmenuNotSearched`
  shows an id in a later submenu that is not found.
- `get_layout` serves a fixed two-level layout, whatever menu the
  application built. The model follows the code.
- `Wchars.WcharArray`: requires a buffer of at least one unit. On an empty
  buffer `dst.len() - 1` underflows and the source panics; that panic is not
  modelled, because every caller passes a 128-unit tooltip array
  (src/sys/windows/notifyicon.rs:24, src/sys/windows/winnotifyicon.rs:22
  and :62) or a five-unit test buffer.
- `wchar_array` truncates by UTF-16 units, so it can split a surrogate pair;
  `Wchars.TruncationSplitsSurrogates` shows such an input. The model follows
  the code.
