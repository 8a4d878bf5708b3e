# rbwm in Dafny

rbwm is a Bitwarden menu. It reads a small `KEY=VALUE` configuration file. It picks a
menu program (dmenu, bemenu, rofi, wmenu, fuzzel or tofi) and a pinentry program,
falling back to the first installed one and confirming each fallback once per
session. It unlocks the vault through the `rbw` CLI. It then offers a top menu:
`[Details]`, `[Notes]`, `[Sync]`, `[Lock]`, followed by the labels of the vault's
logins. Picking a login types its user name and password. Picking an action lets
the user type one field of a login, type a secure note, sync or lock.

This project models that logic and proves properties of it. Every external program
is an input rather than a call:

- whether a program is installed is a predicate `installed`;
- whether `WAYLAND_DISPLAY` is set is a boolean;
- each picker invocation gets its reply from a function of the invocation (command
  line and standard input);
- the vault CLI's exit codes and outputs are fields of `App.VaultCli`;
- JSON decoding is a function from the stripped output to an optional decoded value.

Keystrokes and vault commands are the `App.Action`s a run returns.

Modules:

- `Wrappers`: `Option` and `Result`.
- `Text`: Python's `str.strip` with Python's whitespace set, `index`, `join` and
  `split`.
- `Menu` (rbwm/menu.py): the picker templates and command construction, the input
  text and the reply's reading.
- `ConfigFile` (the parser in `Config.load`): line parsing and the fold of the lines
  into the settings map.
- `Configuration` (rbwm/config.py): the program lists, the two resolvers, and the
  `Config` class whose methods update its settings and two fallback flags. A ghost
  trace records the confirmation prompts shown.
- `Vault` (rbwm/vault.py): entries from the listing, rows from an entry's data, and
  the unlock short-circuit.
- `App` (rbwm/__main__.py and `select_from_menu`): entry selection, the actions, the
  top menu, dispatch, and one whole run.

`App.Run` is proved equal to the function `App.MainOutcome`. Its configuration
object is fresh, as the program's module-level `CONFIG` is, so the outcome of a run
does not depend on whether a confirmation prompt was shown.

`get_entries` as written does not guard `json.loads` (rbwm/vault.py:46). Non-blank
output that fails to decode therefore raises, and nothing in `main` catches it. The
model follows the code: `Vault.Listing` fails and `App.MainOutcome` ends in
`Crashed`. It does not return an empty list.

## Model

| member | source | states |
|---|---|---|
| Text.StripLeftSpec | rbwm/config.py:47 | stripping the left end keeps a suffix that does not start with whitespace and drops only whitespace |
| Text.StripRightSpec | rbwm/config.py:47 | stripping the right end keeps a prefix that does not end with whitespace and drops only whitespace |
| Text.StripSpec | rbwm/config.py:47 | `Strip` removes exactly the leading and trailing whitespace: the result is an infix of the input, every removed character is whitespace, and the result neither starts nor ends with whitespace |
| Text.SplitJoin | rbwm/menu.py:40 | splitting a newline-joined, non-empty list of newline-free items at `\n` gives the items back |
| Menu.KnownPickerCommand | rbwm/menu.py:7-32 | each of the six known pickers gets its fixed command line, with the prompt inside the single quotes |
| Menu.DmenuTemplate | rbwm/menu.py:8-11 | the dmenu template is `dmenu -l 10 -i -p '` + `{prompt}` + `'` |
| Menu.BemenuTemplate | rbwm/menu.py:12-15 | the bemenu template is `bemenu -l 10 -i -p '` + `{prompt}` + `'` |
| Menu.WmenuTemplate | rbwm/menu.py:16-19 | the wmenu template is `wmenu -i -p '` + `{prompt}` + `'` |
| Menu.RofiTemplate | rbwm/menu.py:20-23 | the rofi template is `rofi -dmenu -i -p '` + `{prompt}` + `'` |
| Menu.FuzzelTemplate | rbwm/menu.py:24-27 | the fuzzel template is `fuzzel --dmenu -p '` + `{prompt}` + `'` |
| Menu.TofiTemplate | rbwm/menu.py:28-31 | the tofi template is `tofi --prompt '` + `{prompt}` + `'` |
| Menu.SubstitutePlainPrefix | rbwm/menu.py:38 | text without `{` passes through substitution unchanged |
| Menu.SubstituteOnce | rbwm/menu.py:38 | one `{prompt}` between brace-free text is replaced by the prompt, and nothing else changes |
| Menu.CustomCommandVerbatim | rbwm/menu.py:37 | a program that is not a known picker, and has no braces, is run verbatim as the command |
| Menu.PickerInputIsItems | rbwm/menu.py:40 | the picker's input is `""` for no items; otherwise, for newline-free items, splitting it at newlines gives the items back |
| Menu.SelectionSpec | rbwm/menu.py:48 | a reply yields a selection exactly when its exit code is 0; the selection is the stdout with only whitespace removed around it (it sits in the stdout with nothing but whitespace before and after it) and has no whitespace at either end; it may be empty |
| Menu.SelectionDropsNewline | rbwm/menu.py:48 | a picker printing a trimmed choice followed by a newline selects exactly that choice |
| ConfigFile.ParsedLines | rbwm/config.py:46-52 | one parse result per line, each line parsed on its own |
| ConfigFile.SettingsStep | rbwm/config.py:46-52 | reading one more line either leaves the map unchanged or sets that line's key to its value |
| ConfigFile.ParseLineSplitsAtFirstEquals | rbwm/config.py:47-52 | a line yields a setting exactly when, stripped, it is non-empty, does not start with `#`, and holds `=`; the key is the trimmed text before the first `=` and the value the trimmed rest |
| ConfigFile.SettingLineTrimmed | rbwm/config.py:47 | `key=value` built from trimmed parts is itself trimmed |
| ConfigFile.TrimmedSettingParses | rbwm/config.py:50-52 | a trimmed line `key=value` whose key has no `=` parses to that key and value |
| ConfigFile.WrittenSettingReadsBack | rbwm/config.py:47-52 | writing `key=value` and reading it back gives the same key and value, even when the value holds `=` |
| ConfigFile.SkippedContributionDropped | rbwm/config.py:48-50 | a line that contributes nothing does not affect the settings, wherever it sits |
| ConfigFile.ParsedLinesAppend | rbwm/config.py:46 | parsing a concatenation of files is parsing each in turn |
| ConfigFile.InertLineDropped | rbwm/config.py:48-50 | inserting a blank, comment or `=`-less line anywhere leaves the settings unchanged |
| ConfigFile.SettingKeysAssigned | rbwm/config.py:52 | every key of the settings comes from some parsed line |
| ConfigFile.KeysComeFromLines | rbwm/config.py:46-52 | every key of the settings map comes from some line of the file |
| ConfigFile.LastContributionWins | rbwm/config.py:52 | a key's value is the one given by its last assignment |
| ConfigFile.LastAssignmentWins | rbwm/config.py:46-52 | a key's value is the one on the last line that sets it: a later line overwrites an earlier one |
| Configuration.FirstInstalledIsFirst | rbwm/config.py:69-72 | the scan finds nothing exactly when no candidate is installed; otherwise it finds an installed candidate with no installed one before it |
| Configuration.FindInstalled | rbwm/config.py:68-72 | the loop with `break` returns the first installed candidate of the order |
| Configuration.ResolveMenuSpec | rbwm/config.py:58-85 | an installed, non-`auto` MENU_CMD is returned unchanged; otherwise the result is the first installed program of the Wayland or X11 order, and the error is raised only when none is installed; a resolved picker is installed |
| Configuration.ResolvePinentrySpec | rbwm/config.py:89-99 | an installed PINENTRY_CMD is returned unchanged; otherwise the result is the first installed entry of `PINENTRY_PROGRAMS`, and the error is raised only when none is installed |
| Configuration.CountKindAppend | rbwm/config.py:81 | appending a prompt adds one to its own kind's count only |
| Configuration.MenuPromptsOnce | rbwm/config.py:78-82 | `get_menu_cmd` shows at most one prompt, of the menu kind, only while the menu flag is clear, and none once the flag it sets is set |
| Configuration.PinentryPromptsOnce | rbwm/config.py:101-125 | `get_pinentry_cmd` shows at most one prompt, of the pinentry kind, only while the pinentry flag is clear, and none once the flag it sets is set |
| Configuration.Config.constructor | rbwm/config.py:22-25 | a new configuration has empty settings, both flags false and no prompts shown |
| Configuration.Config.Load | rbwm/config.py:39-54 | after loading, the settings are exactly the fold of the file's lines |
| Configuration.Config.GetMenuCmd | rbwm/config.py:56-85 | returns the resolved picker; appends exactly `MenuPrompts` to the prompts shown and sets the menu flag exactly when that is not empty; the pinentry flag and settings are untouched; each flag still matches its prompt count |
| Configuration.Config.ResolvePickerSilently | rbwm/config.py:104-122 | the inline picker lookup gives the same picker as `get_menu_cmd`, without its prompt, and changes nothing |
| Configuration.Config.GetPinentryCmd | rbwm/config.py:87-129 | returns the resolved pinentry program, or the picker error when the confirmation is due and no picker exists; appends exactly `PinentryPrompts` and sets the pinentry flag exactly when that is not empty; never touches the menu flag |
| Vault.Listing | rbwm/vault.py:42-66 | blank listing output gives no entries; non-blank output that does not decode fails; otherwise there is one entry per listed item, in order |
| Vault.BuildEntries | rbwm/vault.py:48-66 | the loop that appends entries and grows each label with `+=` yields one entry per item, in order, each with its label and fields defaulted to `""` |
| Vault.GetEntries | rbwm/vault.py:42-66 | strips and decodes the listing and builds its entries: computes `Listing` |
| Vault.LabelParts | rbwm/vault.py:54-58 | the label is the name, then ` (user)` only when there is a user, then ` [folder]` only when there is a folder, in that order |
| Vault.LabelsCanCollide | rbwm/vault.py:54-58 | the login `Bank (me)` without a user and the login `Bank` with user `me` get the same label |
| Vault.GetEntryData | rbwm/vault.py:69-82 | blank or undecodable output gives the empty record; decodable output gives the decoded record; it never fails |
| Vault.RowOf | rbwm/vault.py:94-113 | blank values give no row; a password gives `password` with the full value; `totp` gives the stripped code exactly when it is non-blank; other strings give `key: value` with the full string; other values give nothing |
| Vault.GetEntryFields | rbwm/vault.py:85-115 | no rows without `data`; otherwise the rows of its entries, in order |
| Vault.RowsOfAppend | rbwm/vault.py:94 | the rows of a concatenation of `data` entries are the rows of each part, in order |
| Vault.RowsComeFromData | rbwm/vault.py:94-113 | every row comes from one non-blank `data` entry |
| Vault.RowValuesNonEmpty | rbwm/vault.py:95-113 | no row carries an empty value |
| Vault.StringFieldsListed | rbwm/vault.py:98-113 | every non-blank string under a key other than `totp` gives its row |
| Vault.FieldLabelTruncates | rbwm/vault.py:112 | a field label is `key: ` and the whole value when it has at most 50 characters, else its first 50 characters followed by `...` |
| Vault.PasswordOnlyRecord | rbwm/vault.py:95-99 | a record with a password and a null totp gives exactly the password row |
| Vault.EnsureUnlocked | rbwm/vault.py:6-29 | an unlocked vault succeeds without resolving a pinentry program or changing the configuration; otherwise the pinentry resolution's error is raised, or the unlock exit code decides, with the resolved program passed as `PINENTRY_PROGRAM`; the pinentry confirmation, if due, is appended to the prompts and sets the pinentry flag |
| App.Logins | rbwm/__main__.py:24 | the logins are exactly the entries whose type is not `Note` |
| App.NoteEntries | rbwm/__main__.py:47 | the notes are exactly the entries whose type is `Note` |
| App.LoginsAppend | rbwm/__main__.py:24 | the logins of a concatenation are the logins of each part in turn: filtering keeps the listing's order |
| App.NoteEntriesAppend | rbwm/__main__.py:47 | the notes of a concatenation are the notes of each part in turn: filtering keeps the listing's order |
| App.LoginsAndNotesPartition | rbwm/__main__.py:24-47 | logins and notes together are the entries, as a multiset |
| App.FirstMatch | rbwm/__main__.py:19 | finds nothing exactly when no item carries the label; otherwise finds the first item carrying it |
| App.FirstMatchCons | rbwm/__main__.py:19 | `next(...)` takes the head when it carries the label and otherwise searches the rest |
| App.Pick | rbwm/menu.py:51-56 | a picker error propagates unchanged; otherwise the selection is trimmed |
| App.EntryChoice | rbwm/__main__.py:14-19 | errors come only from the picker; a chosen entry is one of those offered |
| App.EntryChoicePicks | rbwm/__main__.py:14-19 | with a working picker, an empty list gives no entry and otherwise the entry is the first offered one whose label equals the non-empty reply |
| App.SelectFromMenu | rbwm/menu.py:51-56 | resolves the picker through `get_menu_cmd` and reads the menu's reply: computes `Pick`; appends the menu fallback's confirmation when due and sets the menu flag when it was shown |
| App.SelectEntry | rbwm/__main__.py:14-19 | no menu and no entry for an empty list, leaving the configuration as it was; otherwise the first entry whose label equals a non-empty pick, with the menu fallback's confirmation appended when due |
| App.AutofillTypesCredentials | rbwm/__main__.py:81-89 | autofill types the user name, then the password, skipping an empty one; it presses Tab and Enter only when it typed both, and then exactly in the order user name, Tab, password, Enter; it types no empty text |
| App.AutofillOnlyLogins | rbwm/__main__.py:71-79 | a pick that no login carries does nothing; otherwise autofill types the credentials of the first login of the listing, in order, that carries it |
| App.FirstLoginFound | rbwm/__main__.py:71-72 | looking the pick up among the logins finds the listing's first non-note entry labelled with it |
| App.AutofillTypesOnlyText | rbwm/__main__.py:67-89 | autofill never types an empty text |
| App.DetailsOutcome | rbwm/__main__.py:22-40 | errors come only from the picker |
| App.NotesOutcome | rbwm/__main__.py:43-54 | errors come only from the picker |
| App.ActionDetails | rbwm/__main__.py:22-40 | picks a login, then one of its rows, and types the row's value: computes `DetailsOutcome`; shows the menu fallback's confirmation at most once, and only when there is a login to offer |
| App.ActionNotes | rbwm/__main__.py:43-54 | picks a note and types its notes when they are non-empty: computes `NotesOutcome`; shows the menu fallback's confirmation at most once, and only when there is a note to offer |
| App.DetailsTypesRowValue | rbwm/__main__.py:22-40 | Details types at most one non-empty text, the value of a row of a login |
| App.NoLoginCarries | rbwm/__main__.py:24-26 | when no login carries the pick, looking it up among the logins finds nothing |
| App.DetailsOfChosen | rbwm/__main__.py:30-40 | once a login is chosen, Details types the value of the first of its rows whose label equals the field pick, and nothing when it has no rows or no row carries the pick |
| App.DetailsIgnoresOtherPicks | rbwm/__main__.py:24-28 | a login pick that is missing, empty or carried by no login types nothing |
| App.DetailsTypesPickedRow | rbwm/__main__.py:24-40 | a non-empty login pick selects the first login of the listing carrying it, and Details types the value of that login's row picked next, or nothing when none carries the field pick |
| App.NotesTypesNoteText | rbwm/__main__.py:43-54 | Notes types at most one non-empty text, the notes of a secure note |
| App.FirstNoteFound | rbwm/__main__.py:47-48 | looking the pick up among the notes finds the listing's first secure note labelled with it |
| App.NoNoteCarries | rbwm/__main__.py:47-48 | when no secure note carries the pick, looking it up among the notes finds nothing |
| App.NotesOfChosen | rbwm/__main__.py:50-54 | once a note is chosen, Notes types its notes exactly when they are non-empty |
| App.NotesIgnoresOtherPicks | rbwm/__main__.py:47-54 | a note pick that is missing, empty or carried by no secure note types nothing |
| App.NotesTypesPickedNote | rbwm/__main__.py:47-54 | a non-empty note pick types the non-empty notes of the first secure note of the listing carrying it, and nothing when they are empty |
| App.TopMenuLayout | rbwm/__main__.py:105-114 | the top menu is `[Details]`, `[Notes]`, `[Sync]`, `[Lock]`, then every login's label in order |
| App.DispatchRoutes | rbwm/__main__.py:107-123 | an action label runs its action, even if a login carries it; any other pick goes to autofill |
| App.Run | rbwm/__main__.py:92-126 | one run computes `MainOutcome`, and the confirmation prompts it shows are exactly `RunPrompts` |
| App.Serve | rbwm/__main__.py:105-123 | the top menu and the action picked compute `Session`; only the top menu can show the menu fallback's confirmation |
| App.CountPinentryThenMenu | rbwm/config.py:78-125 | one pinentry prompt at most followed by one menu prompt at most hold at most one prompt of each kind |
| App.RunPromptsOnce | rbwm/config.py:78-125 | a run shows at most one confirmation of each fallback, however often it resolves the picker |
| App.MissingDmenuAnnouncedOnce | rbwm/config.py:58-85 | with the vault already unlocked, `MENU_CMD=dmenu` not installed, a Wayland session and fuzzel installed, the picker is fuzzel and a run reaching the top menu shows exactly one prompt, `dmenu not found, using fuzzel` |
| App.DispatchTypesOnlyText | rbwm/__main__.py:117-123 | nothing typed after a top-menu pick is empty |
| App.SessionTypesOnlyText | rbwm/__main__.py:114-123 | nothing typed after the top menu is empty |
| App.RunTypesOnlyText | rbwm/__main__.py:98-126 | nothing a run types is empty |
| App.SessionNotifiesPickerError | rbwm/__main__.py:114-126 | after unlocking, only the picker's error can be notified |
| App.UnlockErrors | rbwm/vault.py:25-29 | unlocking raises only a missing-pinentry or missing-picker error, and an unlocked vault raises nothing |
| App.RunNotifiesConfigErrors | rbwm/__main__.py:98-126 | a run notifies only the two configuration errors; with the vault already unlocked, only the missing-picker one |
| App.RunNotifiesEveryConfigError | rbwm/__main__.py:98-126 | no configuration error is swallowed: a locked vault whose pinentry resolution fails notifies that error, and a run reaching the top menu with no picker notifies the missing picker |

## Left out

- Running programs: `shutil.which`, `notify-send`, `rbw` and the picker's `subprocess.run` are inputs (an `installed` predicate, exit codes, outputs, a reply function). `System.notify` is the `Notified` outcome.
- rbwm/inject.py is not part of this model. Typing, Tab and Enter are the abstract `Type`, `Tab` and `Enter` actions.
- rbwm/system.py is not part of this model beyond `has_command`, which is the `installed` predicate.
- The setup wizards `_setup`, `_setup_cli` and `_setup_gui`, and the `setup` command-line argument. A missing configuration file, which starts the wizard, is not modelled: `Config.Load` takes the file's lines.
- `Config.get_dir` and `config_file`: directory creation and the XDG lookup.
- Reading the file: the lines are given already split. The line terminators that iteration keeps are whitespace, so `strip` removes them.
- A configuration key that is missing entirely: `has_command(None)` is taken as false, so a missing key always falls back. In the source `shutil.which(None)` raises a TypeError instead.
- Before `load`, the configuration is `None` in the source and an empty map in the model. Every modelled path loads first.
- Vault.EntryOf: a listing field present with the JSON value `null` is read like an absent one, as `""`. In the source `item.get` returns `None` for it: a null name leaves the label `None`, and joining the menu's items then raises a TypeError; a null user or folder is kept as `None`.
- JSON decoding: `decodeList` and `decodeRecord` stand for `json.loads` followed by reading the fields.
- A listing or record that decodes to something other than an array of objects, or an object, is not modelled.
- A `data` object is a sequence of key/value pairs, assumed to have distinct keys as decoded JSON objects do.
- Python `str.format` on a custom picker command that holds braces other than `{prompt}`: `Menu.Substitute` only replaces `{prompt}`.
- `Vault.RowOf`: a `password` whose value is neither blank nor a string (a number, say) gets no row here. The source lists it with the raw value, which typing cannot send as text.
- `App.Credential`: a username or password that is a non-empty, non-string JSON value is read as absent here. The source would pass that value on to typing.
- `lock` and `sync` are the `LockVault` and `SyncVault` actions; their exit codes are ignored in the source too.
- `is_unlocked` and `unlock` are folded into `Vault.EnsureUnlocked`, which takes their two exit codes.
