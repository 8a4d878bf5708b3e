/**
  The program's entry point (rbwm/__main__.py) with `select_from_menu` (rbwm/menu.py):
  one run reads the configuration, makes sure the vault is unlocked, offers the top
  menu of actions and logins, and carries out the choice.  The picker's replies are a
  function of the menu shown, the vault CLI's answers are inputs, and the keystrokes
  the run would send are the `Action`s it returns.
*/
module App {
  import opened Wrappers
  import Text
  import Menu
  import ConfigFile
  import opened Configuration
  import opened Vault

  /** What a run does to the outside world: typing, key presses and vault commands. */
  datatype Action = Type(text: string) | Tab | Enter | SyncVault | LockVault

  /** How a run ends: its actions, a notification of a configuration error, or an uncaught error. */
  datatype Outcome = Finished(actions: seq<Action>) | Notified(message: string) | Crashed

  /** The vault CLI's answers: status and unlock exit codes, and the outputs of `list`, `get` and `code`. */
  datatype VaultCli = VaultCli(
    unlockedExit: int,
    unlockExit: int,
    listOutput: string,
    decodeList: string -> Option<seq<ListItem>>,
    getOutput: string -> string,
    decodeRecord: string -> Option<EntryRecord>,
    codeOutput: string -> string)

  const DETAILS: string := "[Details]"
  const NOTES: string := "[Notes]"
  const SYNC: string := "[Sync]"
  const LOCK: string := "[Lock]"
  /** The top menu's actions, listed before the logins. */
  const ACTION_ITEMS: seq<string> := [DETAILS, NOTES, SYNC, LOCK]
  const NOTE_KIND: string := "Note"

  /** The entries that are not secure notes, in order. */
  function Logins(entries: seq<Entry>): (logins: seq<Entry>)
    ensures |logins| <= |entries|
    ensures forall e :: e in logins <==> e in entries && e.kind != NOTE_KIND
  {
    if entries == [] then []
    else (if entries[0].kind != NOTE_KIND then [entries[0]] else []) + Logins(entries[1..])
  }

  /** The secure notes, in order. */
  function NoteEntries(entries: seq<Entry>): (notes: seq<Entry>)
    ensures |notes| <= |entries|
    ensures forall e :: e in notes <==> e in entries && e.kind == NOTE_KIND
  {
    if entries == [] then []
    else (if entries[0].kind == NOTE_KIND then [entries[0]] else []) + NoteEntries(entries[1..])
  }

  /** The logins of a concatenation are the logins of each part, in order: filtering keeps the listing's order. */
  lemma {:induction false} LoginsAppend(a: seq<Entry>, b: seq<Entry>)
    ensures Logins(a + b) == Logins(a) + Logins(b)
  {
    if a == [] {
      assert a + b == b;
    } else {
      var ab := a + b;
      assert ab[0] == a[0] && ab[1..] == a[1..] + b;
      LoginsAppend(a[1..], b);
      assert Logins(ab) == (if a[0].kind != NOTE_KIND then [a[0]] else []) + Logins(ab[1..]);
    }
  }

  /** The notes of a concatenation are the notes of each part, in order. */
  lemma {:induction false} NoteEntriesAppend(a: seq<Entry>, b: seq<Entry>)
    ensures NoteEntries(a + b) == NoteEntries(a) + NoteEntries(b)
  {
    if a == [] {
      assert a + b == b;
    } else {
      var ab := a + b;
      assert ab[0] == a[0] && ab[1..] == a[1..] + b;
      NoteEntriesAppend(a[1..], b);
      assert NoteEntries(ab) == (if a[0].kind == NOTE_KIND then [a[0]] else []) + NoteEntries(ab[1..]);
    }
  }

  /** Every entry is either a login or a note, and the two lists together hold them all. */
  lemma {:induction false} LoginsAndNotesPartition(entries: seq<Entry>)
    ensures |Logins(entries)| + |NoteEntries(entries)| == |entries|
    ensures multiset(Logins(entries)) + multiset(NoteEntries(entries)) == multiset(entries)
  {
    if entries != [] {
      LoginsAndNotesPartition(entries[1..]);
      assert entries == [entries[0]] + entries[1..];
    }
  }

  /** The labels of a list of items, as the picker lists them. */
  function Labels<T>(items: seq<T>, shown: T -> string): seq<string> {
    seq(|items|, i requires 0 <= i < |items| => shown(items[i]))
  }

  function EntryLabel(e: Entry): string { e.display }

  function FieldLabelOf(f: Field): string { f.display }

  /** `next(x for x in items if shown(x) == choice)`: the first item with that label. */
  function FirstMatch<T>(items: seq<T>, shown: T -> string, choice: string): (r: Option<T>)
    ensures r.None? <==> forall i :: 0 <= i < |items| ==> shown(items[i]) != choice
    ensures r.Some? ==> (shown(r.value) == choice &&
      exists i :: 0 <= i < |items| && items[i] == r.value && forall j :: 0 <= j < i ==> shown(items[j]) != choice)
  {
    if items == [] then None
    else if shown(items[0]) == choice then Some(items[0])
    else
      var rest := FirstMatch(items[1..], shown, choice);
      assert forall i :: 1 <= i < |items| ==> items[i] == items[1..][i - 1];
      assert rest.Some? ==> exists i :: 0 <= i < |items| && items[i] == rest.value &&
                                       forall j :: 0 <= j < i ==> shown(items[j]) != choice by {
        if rest.Some? {
          var k :| 0 <= k < |items[1..]| && items[1..][k] == rest.value &&
                   forall j :: 0 <= j < k ==> shown(items[1..][j]) != choice;
          assert items[k + 1] == rest.value;
        }
      }
      rest
  }

  /** A picked label names the first item carrying it; no pick or an empty pick names none. */
  function Chosen<T>(items: seq<T>, shown: T -> string, choice: Option<string>): Option<T> {
    if choice.None? || choice.value == "" then None else FirstMatch(items, shown, choice.value)
  }

  /**
    `select_from_menu`: the picker the configuration resolves to, or its error, and the
    stripped reply to the menu it is shown.
  */
  function Pick(picker: Result<string, ConfigError>, items: seq<string>, prompt: string,
                reply: Menu.Invocation -> Menu.Reply): (r: Result<Option<string>, ConfigError>)
    ensures r.Failure? <==> picker.Failure?
    ensures r.Failure? ==> r.error == picker.error
    ensures r.Success? ==> (r.value.Some? ==> Text.Trimmed(r.value.value))
  {
    match picker
    case Failure(e) => Failure(e)
    case Success(program) =>
      var answer := reply(Menu.BuildInvocation(program, items, prompt));
      Menu.SelectionSpec(answer);
      Success(Menu.Selection(answer))
  }

  /** `select_entry`: no menu for no entries; otherwise the entry whose label is picked. */
  function EntryChoice(picker: Result<string, ConfigError>, entries: seq<Entry>, prompt: string,
                       reply: Menu.Invocation -> Menu.Reply): (r: Result<Option<Entry>, ConfigError>)
    ensures r.Failure? ==> picker.Failure? && r.error == picker.error
    ensures r.Success? && r.value.Some? ==> r.value.value in entries
  {
    if entries == [] then Success(None)
    else
      match Pick(picker, Labels(entries, EntryLabel), prompt, reply)
      case Failure(e) => Failure(e)
      case Success(choice) => Success(Chosen(entries, EntryLabel, choice))
  }

  /** A data value as `get(key) or ""` reads it: only a non-empty string counts. */
  function Credential(record: EntryRecord, key: string): string {
    if record.data.None? then ""
    else
      match Find(record.data.value, key)
      case Some(Str(text)) => text
      case _ => ""
  }

  /** The value of the last occurrence of `key`, as a decoded JSON object keeps it. */
  function Find(pairs: seq<(string, Value)>, key: string): Option<Value> {
    if pairs == [] then None
    else if pairs[|pairs| - 1].0 == key then Some(pairs[|pairs| - 1].1)
    else Find(pairs[..|pairs| - 1], key)
  }

  /** The keystrokes that fill in a login. */
  function AutofillActions(user: string, password: string): seq<Action> {
    if user != "" && password != "" then [Type(user), Tab, Type(password), Enter]
    else if user != "" then [Type(user)]
    else if password != "" then [Type(password)]
    else []
  }

  /** The texts a sequence of actions types, in order. */
  function Typed(actions: seq<Action>): seq<string> {
    if actions == [] then []
    else (if actions[0].Type? then [actions[0].text] else []) + Typed(actions[1..])
  }

  /**
    Autofill types the user name and then the password, skipping an empty one; it
    moves to the next field and submits only when it typed both.
  */
  lemma AutofillTypesCredentials(user: string, password: string)
    ensures var actions := AutofillActions(user, password);
      Typed(actions) == (if user != "" then [user] else []) + (if password != "" then [password] else []) &&
      (Tab in actions <==> user != "" && password != "") &&
      (Enter in actions <==> user != "" && password != "") &&
      (Enter in actions ==> actions[|actions| - 1] == Enter) &&
      SyncVault !in actions && LockVault !in actions && TypesOnlyText(actions)
    ensures var actions := AutofillActions(user, password);
      |actions| == |Typed(actions)| + (if user != "" && password != "" then 2 else 0) &&
      (Tab in actions ==> actions[1] == Tab)
  {
    var actions := AutofillActions(user, password);
    if user != "" && password != "" {
      assert actions[1..][1..][1..][1..] == [];
      assert Typed(actions[1..][1..][1..]) == [];
      assert Typed(actions[1..][1..]) == [password];
      assert Typed(actions[1..]) == [password];
    } else if user != "" || password != "" {
      assert actions[1..] == [];
    }
  }

  /** The keystrokes that fill in the credentials of `entry`'s record. */
  function FillIn(entry: Entry, vault: VaultCli): seq<Action> {
    var record := GetEntryData(vault.getOutput(entry.name), vault.decodeRecord);
    AutofillActions(Credential(record, "username"), Credential(record, "password"))
  }

  /** `action_autofill`: the keystrokes for the first login carrying the picked label. */
  function AutofillOutcome(entries: seq<Entry>, choice: string, vault: VaultCli): seq<Action> {
    match FirstMatch(Logins(entries), EntryLabel, choice)
    case None => []
    case Some(entry) => FillIn(entry, vault)
  }

  /** `action_details`: pick a login, then one of its rows, and type that row's value. */
  function DetailsOutcome(picker: Result<string, ConfigError>, entries: seq<Entry>, vault: VaultCli,
                          reply: Menu.Invocation -> Menu.Reply): (r: Result<seq<Action>, ConfigError>)
    ensures r.Failure? ==> picker.Failure? && r.error == picker.error
  {
    match EntryChoice(picker, Logins(entries), "Select entry", reply)
    case Failure(e) => Failure(e)
    case Success(None) => Success([])
    case Success(Some(entry)) =>
      var fields := EntryFields(GetEntryData(vault.getOutput(entry.name), vault.decodeRecord), vault.codeOutput(entry.name));
      if fields == [] then Success([])
      else
        match Pick(picker, Labels(fields, FieldLabelOf), "Select field", reply)
        case Failure(e) => Failure(e)
        case Success(choice) =>
          match Chosen(fields, FieldLabelOf, choice)
          case None => Success([])
          case Some(f) => Success([Type(f.value)])
  }

  /** `action_notes`: pick a secure note and type its text when it has one. */
  function NotesOutcome(picker: Result<string, ConfigError>, entries: seq<Entry>, vault: VaultCli,
                        reply: Menu.Invocation -> Menu.Reply): (r: Result<seq<Action>, ConfigError>)
    ensures r.Failure? ==> picker.Failure? && r.error == picker.error
  {
    match EntryChoice(picker, NoteEntries(entries), "Select note", reply)
    case Failure(e) => Failure(e)
    case Success(None) => Success([])
    case Success(Some(entry)) =>
      var notes := GetEntryData(vault.getOutput(entry.name), vault.decodeRecord).notes;
      if notes.Some? && notes.value != "" then Success([Type(notes.value)]) else Success([])
  }

  function Finish(r: Result<seq<Action>, ConfigError>): Outcome {
    match r
    case Failure(e) => Notified(e.message)
    case Success(actions) => Finished(actions)
  }

  /** The top menu: the four actions, then the logins' labels. */
  function TopMenu(entries: seq<Entry>): seq<string> {
    ACTION_ITEMS + Labels(Logins(entries), EntryLabel)
  }

  /** What `main` does with a non-empty pick from the top menu. */
  function Dispatch(picker: Result<string, ConfigError>, entries: seq<Entry>, choice: string, vault: VaultCli,
                    reply: Menu.Invocation -> Menu.Reply): Outcome {
    if choice == DETAILS then Finish(DetailsOutcome(picker, entries, vault, reply))
    else if choice == NOTES then Finish(NotesOutcome(picker, entries, vault, reply))
    else if choice == SYNC then Finished([SyncVault])
    else if choice == LOCK then Finished([LockVault])
    else Finished(AutofillOutcome(entries, choice, vault))
  }

  /**
    A pick equal to one of the four action labels runs that action, even when a
    login carries the same label; any other pick goes to autofill.
  */
  lemma DispatchRoutes(picker: Result<string, ConfigError>, entries: seq<Entry>, choice: string, vault: VaultCli,
                       reply: Menu.Invocation -> Menu.Reply)
    ensures choice == SYNC ==> Dispatch(picker, entries, choice, vault, reply) == Finished([SyncVault])
    ensures choice == LOCK ==> Dispatch(picker, entries, choice, vault, reply) == Finished([LockVault])
    ensures choice == DETAILS ==> Dispatch(picker, entries, choice, vault, reply) == Finish(DetailsOutcome(picker, entries, vault, reply))
    ensures choice == NOTES ==> Dispatch(picker, entries, choice, vault, reply) == Finish(NotesOutcome(picker, entries, vault, reply))
    ensures choice !in ACTION_ITEMS ==> Dispatch(picker, entries, choice, vault, reply) == Finished(AutofillOutcome(entries, choice, vault))
  {
  }

  /**
    `ensure_unlocked` on a fresh configuration: an unlocked vault needs nothing;
    otherwise resolving the pinentry program may fail, and the unlock command's exit
    code decides.
  */
  function Unlocked(settings: map<string, string>, installed: string -> bool, wayland: bool,
                    vault: VaultCli): Result<bool, ConfigError> {
    if vault.unlockedExit == 0 then Success(true)
    else
      match PinentryOutcome(Get(settings, MENU_KEY), Get(settings, PINENTRY_KEY), installed, wayland, false)
      case Failure(e) => Failure(e)
      case Success(_) => Success(vault.unlockExit == 0)
  }

  /** The top menu and what the pick from it leads to. */
  function Session(picker: Result<string, ConfigError>, entries: seq<Entry>, vault: VaultCli,
                   reply: Menu.Invocation -> Menu.Reply): Outcome {
    match Pick(picker, TopMenu(entries), "Bitwarden", reply)
    case Failure(e) => Notified(e.message)
    case Success(choice) =>
      if choice.None? || choice.value == "" then Finished([])
      else Dispatch(picker, entries, choice.value, vault, reply)
  }

  /**
    What one run of `main` ends in, for a configuration file with these lines: a
    configuration error is notified, a listing that does not decode is not caught,
    and otherwise the top menu's pick is carried out.
  */
  function MainOutcome(configLines: seq<string>, installed: string -> bool, wayland: bool, vault: VaultCli,
                       reply: Menu.Invocation -> Menu.Reply): Outcome {
    var settings := ConfigFile.ParseConfig(configLines);
    match Unlocked(settings, installed, wayland, vault)
    case Failure(e) => Notified(e.message)
    case Success(false) => Finished([])
    case Success(true) =>
      match Listing(vault.listOutput, vault.decodeList)
      case Failure(_) => Crashed
      case Success(entries) => Session(ResolveMenu(Get(settings, MENU_KEY), installed, wayland), entries, vault, reply)
  }

  /**
    The configuration after a step that resolves the picker through `get_menu_cmd`
    (when `resolves` holds) or never resolves it: the menu fallback's prompt, if due,
    is appended to the prompts shown `before`, and the menu flag is set when it was shown.
  */
  ghost predicate MenuPromptsShown(config: Config, before: seq<Prompt>, wasConfirmed: bool, resolves: bool,
                                   installed: string -> bool, wayland: bool)
    reads config
  {
    var shown := if resolves then MenuPrompts(config.Lookup(MENU_KEY), installed, wayland, wasConfirmed) else [];
    config.prompts == before + shown && config.menuFallbackConfirmed == (wasConfirmed || shown != [])
  }

  /**
    `select_from_menu`: resolves the picker through the configuration, which may show
    the menu fallback's confirmation once, then shows the menu.
  */
  method SelectFromMenu(config: Config, installed: string -> bool, wayland: bool,
                        reply: Menu.Invocation -> Menu.Reply, items: seq<string>, prompt: string)
    returns (r: Result<Option<string>, ConfigError>)
    requires config.Valid()
    modifies config`menuFallbackConfirmed, config`prompts
    ensures config.Valid()
    ensures r == Pick(ResolveMenu(config.Lookup(MENU_KEY), installed, wayland), items, prompt, reply)
    ensures MenuPromptsShown(config, old(config.prompts), old(config.menuFallbackConfirmed), true, installed, wayland)
  {
    var picker := config.GetMenuCmd(installed, wayland);
    if picker.Failure? {
      return Failure(picker.error);
    }
    var shown := Menu.BuildInvocation(picker.value, items, prompt);
    return Success(Menu.Selection(reply(shown)));
  }

  /** `select_entry`. */
  method SelectEntry(config: Config, installed: string -> bool, wayland: bool,
                     reply: Menu.Invocation -> Menu.Reply, entries: seq<Entry>, prompt: string)
    returns (r: Result<Option<Entry>, ConfigError>)
    requires config.Valid()
    modifies config`menuFallbackConfirmed, config`prompts
    ensures config.Valid()
    ensures r == EntryChoice(ResolveMenu(config.Lookup(MENU_KEY), installed, wayland), entries, prompt, reply)
    ensures MenuPromptsShown(config, old(config.prompts), old(config.menuFallbackConfirmed), entries != [],
                             installed, wayland)
  {
    if entries == [] {
      return Success(None);
    }
    var choice := SelectFromMenu(config, installed, wayland, reply, Labels(entries, EntryLabel), prompt);
    if choice.Failure? {
      return Failure(choice.error);
    }
    return Success(Chosen(entries, EntryLabel, choice.value));
  }

  /** `action_details`. */
  method ActionDetails(config: Config, installed: string -> bool, wayland: bool,
                       reply: Menu.Invocation -> Menu.Reply, entries: seq<Entry>, vault: VaultCli)
    returns (r: Result<seq<Action>, ConfigError>)
    requires config.Valid()
    modifies config`menuFallbackConfirmed, config`prompts
    ensures config.Valid()
    ensures r == DetailsOutcome(ResolveMenu(config.Lookup(MENU_KEY), installed, wayland), entries, vault, reply)
    ensures MenuPromptsShown(config, old(config.prompts), old(config.menuFallbackConfirmed), Logins(entries) != [],
                             installed, wayland)
  {
    var entry := SelectEntry(config, installed, wayland, reply, Logins(entries), "Select entry");
    if entry.Failure? {
      return Failure(entry.error);
    }
    if entry.value.None? {
      return Success([]);
    }
    var name := entry.value.value.name;
    var record := GetEntryData(vault.getOutput(name), vault.decodeRecord);
    var fields := GetEntryFields(record, vault.codeOutput(name));
    if fields == [] {
      return Success([]);
    }
    MenuPromptsOnce(config.Lookup(MENU_KEY), installed, wayland, old(config.menuFallbackConfirmed));
    var choice := SelectFromMenu(config, installed, wayland, reply, Labels(fields, FieldLabelOf), "Select field");
    if choice.Failure? {
      return Failure(choice.error);
    }
    var field := Chosen(fields, FieldLabelOf, choice.value);
    if field.None? {
      return Success([]);
    }
    return Success([Type(field.value.value)]);
  }

  /** `action_notes`. */
  method ActionNotes(config: Config, installed: string -> bool, wayland: bool,
                     reply: Menu.Invocation -> Menu.Reply, entries: seq<Entry>, vault: VaultCli)
    returns (r: Result<seq<Action>, ConfigError>)
    requires config.Valid()
    modifies config`menuFallbackConfirmed, config`prompts
    ensures config.Valid()
    ensures r == NotesOutcome(ResolveMenu(config.Lookup(MENU_KEY), installed, wayland), entries, vault, reply)
    ensures MenuPromptsShown(config, old(config.prompts), old(config.menuFallbackConfirmed), NoteEntries(entries) != [],
                             installed, wayland)
  {
    var entry := SelectEntry(config, installed, wayland, reply, NoteEntries(entries), "Select note");
    if entry.Failure? {
      return Failure(entry.error);
    }
    if entry.value.None? {
      return Success([]);
    }
    var notes := GetEntryData(vault.getOutput(entry.value.value.name), vault.decodeRecord).notes;
    if notes.Some? && notes.value != "" {
      return Success([Type(notes.value)]);
    }
    return Success([]);
  }

  /**
    The confirmation prompts one run shows: the pinentry fallback's while a locked
    vault is unlocked, then the menu fallback's when the top menu is shown.  The
    menus after it resolve the picker again but show nothing more.
  */
  function RunPrompts(configLines: seq<string>, installed: string -> bool, wayland: bool, vault: VaultCli): seq<Prompt> {
    var settings := ConfigFile.ParseConfig(configLines);
    var unlocking := if vault.unlockedExit == 0 then []
      else PinentryPrompts(Get(settings, MENU_KEY), Get(settings, PINENTRY_KEY), installed, wayland, false);
    if Unlocked(settings, installed, wayland, vault) == Success(true) && Listing(vault.listOutput, vault.decodeList).Success?
    then unlocking + MenuPrompts(Get(settings, MENU_KEY), installed, wayland, false)
    else unlocking
  }

  /**
    The part of `main` after the listing: the top menu, then the action picked.  Only
    its first menu can show the menu fallback's confirmation.
  */
  method Serve(config: Config, installed: string -> bool, wayland: bool, reply: Menu.Invocation -> Menu.Reply,
               entries: seq<Entry>, vault: VaultCli)
    returns (out: Outcome)
    requires config.Valid()
    modifies config`menuFallbackConfirmed, config`prompts
    ensures config.Valid()
    ensures out == Session(ResolveMenu(config.Lookup(MENU_KEY), installed, wayland), entries, vault, reply)
    ensures MenuPromptsShown(config, old(config.prompts), old(config.menuFallbackConfirmed), true, installed, wayland)
  {
    var choice := SelectFromMenu(config, installed, wayland, reply, TopMenu(entries), "Bitwarden");
    if choice.Failure? {
      return Notified(choice.error.message);
    }
    if choice.value.None? || choice.value.value == "" {
      return Finished([]);
    }
    MenuPromptsOnce(config.Lookup(MENU_KEY), installed, wayland, old(config.menuFallbackConfirmed));
    var picked := choice.value.value;
    if picked == DETAILS {
      var done := ActionDetails(config, installed, wayland, reply, entries, vault);
      out := Finish(done);
    } else if picked == NOTES {
      var done := ActionNotes(config, installed, wayland, reply, entries, vault);
      out := Finish(done);
    } else if picked == SYNC {
      out := Finished([SyncVault]);
    } else if picked == LOCK {
      out := Finished([LockVault]);
    } else {
      out := Finished(AutofillOutcome(entries, picked, vault));
    }
  }

  /**
    `main` without the `setup` argument: one run against a fresh configuration.
    Besides its outcome it yields the confirmation prompts it showed.
  */
  method Run(configLines: seq<string>, installed: string -> bool, wayland: bool, vault: VaultCli,
             reply: Menu.Invocation -> Menu.Reply)
    returns (out: Outcome, ghost prompts: seq<Prompt>)
    ensures out == MainOutcome(configLines, installed, wayland, vault, reply)
    ensures prompts == RunPrompts(configLines, installed, wayland, vault)
  {
    var config := new Config();
    config.Load(configLines);
    var unlocked, _ := EnsureUnlocked(config, installed, wayland, vault.unlockedExit, vault.unlockExit);
    prompts := config.prompts;
    if unlocked.Failure? {
      return Notified(unlocked.error.message), prompts;
    }
    if !unlocked.value {
      return Finished([]), prompts;
    }
    var entries := GetEntries(vault.listOutput, vault.decodeList);
    if entries.Failure? {
      return Crashed, prompts;
    }
    out := Serve(config, installed, wayland, reply, entries.value, vault);
    prompts := config.prompts;
  }

  /** A pinentry prompt at most, then a menu prompt at most, hold at most one prompt of each kind. */
  lemma CountPinentryThenMenu(unlocking: seq<Prompt>, menu: seq<Prompt>)
    requires |unlocking| <= 1 && (unlocking != [] ==> unlocking[0].kind == PinentryFallback)
    requires |menu| <= 1 && (menu != [] ==> menu[0].kind == MenuFallback)
    ensures CountKind(unlocking + menu, MenuFallback) <= 1 && CountKind(unlocking + menu, PinentryFallback) <= 1
  {
    assert CountKind(unlocking, MenuFallback) == 0 && CountKind(unlocking, PinentryFallback) <= 1 by {
      if unlocking != [] {
        assert unlocking == [] + [unlocking[0]];
        CountKindAppend([], unlocking[0], MenuFallback);
        CountKindAppend([], unlocking[0], PinentryFallback);
      }
    }
    if menu != [] {
      assert menu == [menu[0]];
      CountKindAppend(unlocking, menu[0], MenuFallback);
      CountKindAppend(unlocking, menu[0], PinentryFallback);
    } else {
      assert unlocking + menu == unlocking;
    }
  }

  /**
    A run shows each confirmation at most once, however often it resolves the
    picker: at most one pinentry fallback prompt and then at most one menu fallback prompt.
  */
  lemma RunPromptsOnce(configLines: seq<string>, installed: string -> bool, wayland: bool, vault: VaultCli)
    ensures var prompts := RunPrompts(configLines, installed, wayland, vault);
      CountKind(prompts, MenuFallback) <= 1 && CountKind(prompts, PinentryFallback) <= 1
  {
    var settings := ConfigFile.ParseConfig(configLines);
    var menuConfigured, pinConfigured := Get(settings, MENU_KEY), Get(settings, PINENTRY_KEY);
    var unlocking := if vault.unlockedExit == 0 then []
      else PinentryPrompts(menuConfigured, pinConfigured, installed, wayland, false);
    var menu := MenuPrompts(menuConfigured, installed, wayland, false);
    PinentryPromptsOnce(menuConfigured, pinConfigured, installed, wayland, false);
    MenuPromptsOnce(menuConfigured, installed, wayland, false);
    if RunPrompts(configLines, installed, wayland, vault) == unlocking + menu {
      CountPinentryThenMenu(unlocking, menu);
    } else {
      assert RunPrompts(configLines, installed, wayland, vault) == unlocking + [];
      CountPinentryThenMenu(unlocking, []);
    }
  }

  /**
    A configured `dmenu` that is not installed, in a Wayland session with fuzzel
    installed, falls back to fuzzel, and a run that reaches the top menu announces
    it exactly once, as `dmenu not found, using fuzzel`.
  */
  lemma MissingDmenuAnnouncedOnce(configLines: seq<string>, installed: string -> bool, vault: VaultCli)
    requires Get(ConfigFile.ParseConfig(configLines), MENU_KEY) == Some("dmenu")
    requires installed("fuzzel") && !installed("dmenu")
    requires vault.unlockedExit == 0 && Listing(vault.listOutput, vault.decodeList).Success?
    ensures ResolveMenu(Some("dmenu"), installed, true) == Success("fuzzel")
    ensures RunPrompts(configLines, installed, true, vault) ==
      [Prompt(MenuFallback, "fuzzel", Announcement("dmenu", "fuzzel"))]
  {
    var settings := ConfigFile.ParseConfig(configLines);
    assert FirstInstalled(WAYLAND_MENU_ORDER, installed) == Some("fuzzel") by {
      assert WAYLAND_MENU_ORDER[0] == "fuzzel";
    }
    assert MenuFallsBack(Some("dmenu"), installed) && MenuPromptDue(Some("dmenu"), false);
    var shown := Prompt(MenuFallback, "fuzzel", Announcement("dmenu", "fuzzel"));
    assert MenuPrompts(Some("dmenu"), installed, true, false) == [shown];
    assert Unlocked(settings, installed, true, vault) == Success(true);
    assert RunPrompts(configLines, installed, true, vault) == [] + [shown];
  }

  /** The top menu lists the four actions first, then every login's label in order. */
  lemma TopMenuLayout(entries: seq<Entry>)
    ensures var items := TopMenu(entries);
      |items| == 4 + |Logins(entries)| && items[..4] == [DETAILS, NOTES, SYNC, LOCK] &&
      forall i :: 0 <= i < |Logins(entries)| ==> items[4 + i] == Logins(entries)[i].display
  {
    var items := TopMenu(entries);
    var labels := Labels(Logins(entries), EntryLabel);
    assert items == ACTION_ITEMS + labels;
    forall i | 0 <= i < |Logins(entries)|
      ensures items[4 + i] == Logins(entries)[i].display
    {
      assert items[4 + i] == labels[i];
    }
  }

  /** No typing action of a run types an empty text. */
  predicate TypesOnlyText(actions: seq<Action>) {
    forall a :: a in actions && a.Type? ==> a.text != ""
  }

  /** Details types the value of one row of the login picked, and only that. */
  lemma DetailsTypesRowValue(picker: Result<string, ConfigError>, entries: seq<Entry>, vault: VaultCli,
                             reply: Menu.Invocation -> Menu.Reply)
    ensures var r := DetailsOutcome(picker, entries, vault, reply);
      r.Success? && r.value != [] ==>
        |r.value| == 1 && r.value[0].Type? && r.value[0].text != "" &&
        exists e, f :: e in Logins(entries) &&
          f in EntryFields(GetEntryData(vault.getOutput(e.name), vault.decodeRecord), vault.codeOutput(e.name)) &&
          r.value[0] == Type(f.value)
  {
    var r := DetailsOutcome(picker, entries, vault, reply);
    if r.Success? && r.value != [] {
      var e := EntryChoice(picker, Logins(entries), "Select entry", reply).value.value;
      var record := GetEntryData(vault.getOutput(e.name), vault.decodeRecord);
      var fields := EntryFields(record, vault.codeOutput(e.name));
      var pick := Pick(picker, Labels(fields, FieldLabelOf), "Select field", reply);
      var f := Chosen(fields, FieldLabelOf, pick.value).value;
      assert f in fields;
      RowValuesNonEmpty(record.data.value, vault.codeOutput(e.name), f);
    }
  }

  /** Notes types the non-empty text of a secure note picked, and only that. */
  lemma NotesTypesNoteText(picker: Result<string, ConfigError>, entries: seq<Entry>, vault: VaultCli,
                           reply: Menu.Invocation -> Menu.Reply)
    ensures var r := NotesOutcome(picker, entries, vault, reply);
      r.Success? && r.value != [] ==>
        |r.value| == 1 && r.value[0].Type? && r.value[0].text != "" &&
        exists e :: e in NoteEntries(entries) &&
          GetEntryData(vault.getOutput(e.name), vault.decodeRecord).notes == Some(r.value[0].text)
  {
    var r := NotesOutcome(picker, entries, vault, reply);
    if r.Success? && r.value != [] {
      var e := EntryChoice(picker, NoteEntries(entries), "Select note", reply).value.value;
      assert GetEntryData(vault.getOutput(e.name), vault.decodeRecord).notes == Some(r.value[0].text);
    }
  }

  /** Position `i` holds the first entry of the listing that is a login labelled `choice`. */
  predicate FirstLoginAt(entries: seq<Entry>, choice: string, i: int) {
    0 <= i < |entries| && entries[i].kind != NOTE_KIND && entries[i].display == choice &&
    forall j :: 0 <= j < i ==> entries[j].kind == NOTE_KIND || entries[j].display != choice
  }

  /** `FirstMatch` looks at the head first and otherwise at the rest. */
  lemma FirstMatchCons<T>(x: T, items: seq<T>, shown: T -> string, choice: string)
    ensures FirstMatch([x] + items, shown, choice) ==
      if shown(x) == choice then Some(x) else FirstMatch(items, shown, choice)
  {
    assert ([x] + items)[0] == x && ([x] + items)[1..] == items;
  }

  /** Looking the pick up among the logins finds the listing's first login labelled with it. */
  lemma {:induction false} FirstLoginFound(entries: seq<Entry>, choice: string, i: int)
    requires FirstLoginAt(entries, choice, i)
    ensures FirstMatch(Logins(entries), EntryLabel, choice) == Some(entries[i])
  {
    var e, rest := entries[0], entries[1..];
    if i == 0 {
      assert Logins(entries) == [e] + Logins(rest);
      FirstMatchCons(e, Logins(rest), EntryLabel, choice);
    } else {
      assert FirstLoginAt(rest, choice, i - 1) by {
        assert rest[i - 1] == entries[i];
        forall j | 0 <= j < i - 1
          ensures rest[j].kind == NOTE_KIND || rest[j].display != choice
        {
          assert rest[j] == entries[j + 1];
        }
      }
      FirstLoginFound(rest, choice, i - 1);
      assert rest[i - 1] == entries[i];
      if e.kind != NOTE_KIND {
        assert EntryLabel(e) != choice;
        assert Logins(entries) == [e] + Logins(rest);
        FirstMatchCons(e, Logins(rest), EntryLabel, choice);
      } else {
        assert Logins(entries) == Logins(rest);
      }
    }
  }

  /**
    Autofill only ever fills in a login: it does nothing unless a login, not a secure
    note, carries the picked label, and otherwise it types the credentials of the
    first such login in the listing's order.
  */
  lemma AutofillOnlyLogins(entries: seq<Entry>, choice: string, vault: VaultCli)
    ensures (forall i :: 0 <= i < |entries| ==> entries[i].kind == NOTE_KIND || entries[i].display != choice) ==>
      AutofillOutcome(entries, choice, vault) == []
    ensures forall i :: FirstLoginAt(entries, choice, i) ==>
      AutofillOutcome(entries, choice, vault) == FillIn(entries[i], vault)
  {
    var logins := Logins(entries);
    if forall i :: 0 <= i < |entries| ==> entries[i].kind == NOTE_KIND || entries[i].display != choice {
      forall k | 0 <= k < |logins|
        ensures EntryLabel(logins[k]) != choice
      {
        assert logins[k] in logins;
        var i :| 0 <= i < |entries| && entries[i] == logins[k];
      }
    }
    forall i | FirstLoginAt(entries, choice, i)
      ensures AutofillOutcome(entries, choice, vault) == FillIn(entries[i], vault)
    {
      FirstLoginFound(entries, choice, i);
    }
  }

  /** Position `i` holds the first entry of the listing that is a secure note labelled `choice`. */
  predicate FirstNoteAt(entries: seq<Entry>, choice: string, i: int) {
    0 <= i < |entries| && entries[i].kind == NOTE_KIND && entries[i].display == choice &&
    forall j :: 0 <= j < i ==> entries[j].kind != NOTE_KIND || entries[j].display != choice
  }

  /** Looking the pick up among the notes finds the listing's first note labelled with it. */
  lemma {:induction false} FirstNoteFound(entries: seq<Entry>, choice: string, i: int)
    requires FirstNoteAt(entries, choice, i)
    ensures FirstMatch(NoteEntries(entries), EntryLabel, choice) == Some(entries[i])
  {
    var e, rest := entries[0], entries[1..];
    if i == 0 {
      assert NoteEntries(entries) == [e] + NoteEntries(rest);
      FirstMatchCons(e, NoteEntries(rest), EntryLabel, choice);
    } else {
      assert FirstNoteAt(rest, choice, i - 1) by {
        assert rest[i - 1] == entries[i];
        forall j | 0 <= j < i - 1
          ensures rest[j].kind != NOTE_KIND || rest[j].display != choice
        {
          assert rest[j] == entries[j + 1];
        }
      }
      FirstNoteFound(rest, choice, i - 1);
      assert rest[i - 1] == entries[i];
      if e.kind == NOTE_KIND {
        assert EntryLabel(e) != choice;
        assert NoteEntries(entries) == [e] + NoteEntries(rest);
        FirstMatchCons(e, NoteEntries(rest), EntryLabel, choice);
      } else {
        assert NoteEntries(entries) == NoteEntries(rest);
      }
    }
  }

  /** The reply of the picker `program` to the menu of `items` under `prompt`. */
  function Reading(program: string, items: seq<string>, prompt: string,
                   reply: Menu.Invocation -> Menu.Reply): Option<string> {
    Menu.Selection(reply(Menu.BuildInvocation(program, items, prompt)))
  }

  /** With a working picker, the entry menu yields the first offered entry carrying a non-empty pick. */
  lemma EntryChoicePicks(program: string, items: seq<Entry>, prompt: string, reply: Menu.Invocation -> Menu.Reply)
    ensures var pick := Reading(program, Labels(items, EntryLabel), prompt, reply);
      EntryChoice(Success(program), items, prompt, reply) ==
        Success(if items == [] then None else Chosen(items, EntryLabel, pick))
  {
  }

  /** What Notes types once the note menu has named `e`: its notes when they are non-empty. */
  lemma NotesOfChosen(program: string, entries: seq<Entry>, vault: VaultCli, reply: Menu.Invocation -> Menu.Reply,
                      e: Entry)
    requires EntryChoice(Success(program), NoteEntries(entries), "Select note", reply) == Success(Some(e))
    ensures var notes := GetEntryData(vault.getOutput(e.name), vault.decodeRecord).notes;
      NotesOutcome(Success(program), entries, vault, reply) ==
        Success(if notes.Some? && notes.value != "" then [Type(notes.value)] else [])
  {
  }

  /** A pick that is missing, empty or carried by no secure note types nothing. */
  lemma NotesIgnoresOtherPicks(program: string, entries: seq<Entry>, vault: VaultCli,
                               reply: Menu.Invocation -> Menu.Reply)
    ensures var pick := Reading(program, Labels(NoteEntries(entries), EntryLabel), "Select note", reply);
      (pick.None? || pick.value == "" ||
       (forall i :: 0 <= i < |entries| ==> entries[i].kind != NOTE_KIND || entries[i].display != pick.value)) ==>
        NotesOutcome(Success(program), entries, vault, reply) == Success([])
  {
    var pick := Reading(program, Labels(NoteEntries(entries), EntryLabel), "Select note", reply);
    EntryChoicePicks(program, NoteEntries(entries), "Select note", reply);
    if pick.Some? && pick.value != "" {
      NoNoteCarries(entries, pick.value);
    }
  }

  /** When no secure note carries `choice`, looking it up among them finds nothing. */
  lemma NoNoteCarries(entries: seq<Entry>, choice: string)
    ensures (forall i :: 0 <= i < |entries| ==> entries[i].kind != NOTE_KIND || entries[i].display != choice) ==>
      FirstMatch(NoteEntries(entries), EntryLabel, choice) == None
  {
    var found := NoteEntries(entries);
    if forall i :: 0 <= i < |entries| ==> entries[i].kind != NOTE_KIND || entries[i].display != choice {
      forall k | 0 <= k < |found|
        ensures EntryLabel(found[k]) != choice
      {
        assert found[k] in found;
        var i :| 0 <= i < |entries| && entries[i] == found[k];
      }
    }
  }

  /**
    Notes types the notes of the note picked: a non-empty pick carried by a secure
    note types the non-empty notes of the first such note in the listing, and
    nothing when they are empty.
  */
  lemma NotesTypesPickedNote(program: string, entries: seq<Entry>, vault: VaultCli,
                             reply: Menu.Invocation -> Menu.Reply)
    ensures var pick := Reading(program, Labels(NoteEntries(entries), EntryLabel), "Select note", reply);
      forall i :: pick.Some? && pick.value != "" && FirstNoteAt(entries, pick.value, i) ==>
        var notes := GetEntryData(vault.getOutput(entries[i].name), vault.decodeRecord).notes;
        NotesOutcome(Success(program), entries, vault, reply) ==
          Success(if notes.Some? && notes.value != "" then [Type(notes.value)] else [])
  {
    var notes := NoteEntries(entries);
    var pick := Reading(program, Labels(notes, EntryLabel), "Select note", reply);
    forall i | pick.Some? && pick.value != "" && FirstNoteAt(entries, pick.value, i)
      ensures var text := GetEntryData(vault.getOutput(entries[i].name), vault.decodeRecord).notes;
        NotesOutcome(Success(program), entries, vault, reply) ==
          Success(if text.Some? && text.value != "" then [Type(text.value)] else [])
    {
      FirstNoteFound(entries, pick.value, i);
      EntryChoicePicks(program, notes, "Select note", reply);
      assert notes != [];
      NotesOfChosen(program, entries, vault, reply, entries[i]);
    }
  }

  /** What Details types once the login menu has named `e`: the value of the row then picked, if any. */
  lemma DetailsOfChosen(program: string, entries: seq<Entry>, vault: VaultCli, reply: Menu.Invocation -> Menu.Reply,
                        e: Entry)
    requires EntryChoice(Success(program), Logins(entries), "Select entry", reply) == Success(Some(e))
    ensures var fields := EntryFields(GetEntryData(vault.getOutput(e.name), vault.decodeRecord), vault.codeOutput(e.name));
      var row := Chosen(fields, FieldLabelOf, Reading(program, Labels(fields, FieldLabelOf), "Select field", reply));
      DetailsOutcome(Success(program), entries, vault, reply) ==
        Success(if fields != [] && row.Some? then [Type(row.value.value)] else [])
  {
  }

  /** A pick that is missing, empty or carried by no login types nothing. */
  lemma DetailsIgnoresOtherPicks(program: string, entries: seq<Entry>, vault: VaultCli,
                               reply: Menu.Invocation -> Menu.Reply)
    ensures var pick := Reading(program, Labels(Logins(entries), EntryLabel), "Select entry", reply);
      (pick.None? || pick.value == "" ||
       (forall i :: 0 <= i < |entries| ==> entries[i].kind == NOTE_KIND || entries[i].display != pick.value)) ==>
        DetailsOutcome(Success(program), entries, vault, reply) == Success([])
  {
    var pick := Reading(program, Labels(Logins(entries), EntryLabel), "Select entry", reply);
    EntryChoicePicks(program, Logins(entries), "Select entry", reply);
    if pick.Some? && pick.value != "" {
      NoLoginCarries(entries, pick.value);
    }
  }

  /** When no login carries `choice`, looking it up among them finds nothing. */
  lemma NoLoginCarries(entries: seq<Entry>, choice: string)
    ensures (forall i :: 0 <= i < |entries| ==> entries[i].kind == NOTE_KIND || entries[i].display != choice) ==>
      FirstMatch(Logins(entries), EntryLabel, choice) == None
  {
    var found := Logins(entries);
    if forall i :: 0 <= i < |entries| ==> entries[i].kind == NOTE_KIND || entries[i].display != choice {
      forall k | 0 <= k < |found|
        ensures EntryLabel(found[k]) != choice
      {
        assert found[k] in found;
        var i :| 0 <= i < |entries| && entries[i] == found[k];
      }
    }
  }

  /**
    Details types a row of the login picked: a non-empty pick carried by a login
    offers the rows of the first such login in the listing and types the value of
    the first row carrying the field pick, and nothing when no row carries it.
  */
  lemma DetailsTypesPickedRow(program: string, entries: seq<Entry>, vault: VaultCli,
                              reply: Menu.Invocation -> Menu.Reply)
    ensures var pick := Reading(program, Labels(Logins(entries), EntryLabel), "Select entry", reply);
      forall i :: pick.Some? && pick.value != "" && FirstLoginAt(entries, pick.value, i) ==>
        var fields := EntryFields(GetEntryData(vault.getOutput(entries[i].name), vault.decodeRecord),
                                  vault.codeOutput(entries[i].name));
        var row := Chosen(fields, FieldLabelOf, Reading(program, Labels(fields, FieldLabelOf), "Select field", reply));
        DetailsOutcome(Success(program), entries, vault, reply) ==
          Success(if fields != [] && row.Some? then [Type(row.value.value)] else [])
  {
    var logins := Logins(entries);
    var pick := Reading(program, Labels(logins, EntryLabel), "Select entry", reply);
    forall i | pick.Some? && pick.value != "" && FirstLoginAt(entries, pick.value, i)
      ensures var fields := EntryFields(GetEntryData(vault.getOutput(entries[i].name), vault.decodeRecord),
                                        vault.codeOutput(entries[i].name));
        var row := Chosen(fields, FieldLabelOf, Reading(program, Labels(fields, FieldLabelOf), "Select field", reply));
        DetailsOutcome(Success(program), entries, vault, reply) ==
          Success(if fields != [] && row.Some? then [Type(row.value.value)] else [])
    {
      FirstLoginFound(entries, pick.value, i);
      EntryChoicePicks(program, logins, "Select entry", reply);
      assert logins != [];
      DetailsOfChosen(program, entries, vault, reply, entries[i]);
    }
  }

  /** Autofill never types an empty text. */
  lemma AutofillTypesOnlyText(entries: seq<Entry>, choice: string, vault: VaultCli)
    ensures TypesOnlyText(AutofillOutcome(entries, choice, vault))
  {
    var found := FirstMatch(Logins(entries), EntryLabel, choice);
    if found.Some? {
      var record := GetEntryData(vault.getOutput(found.value.name), vault.decodeRecord);
      var user := Credential(record, "username");
      var password := Credential(record, "password");
      assert AutofillOutcome(entries, choice, vault) == AutofillActions(user, password);
      AutofillTypesCredentials(user, password);
    }
  }

  /** Whatever the pick from the top menu, nothing typed is empty. */
  lemma DispatchTypesOnlyText(picker: Result<string, ConfigError>, entries: seq<Entry>, choice: string,
                              vault: VaultCli, reply: Menu.Invocation -> Menu.Reply)
    ensures var out := Dispatch(picker, entries, choice, vault, reply);
      out.Finished? ==> TypesOnlyText(out.actions)
  {
    if choice == DETAILS {
      var r := DetailsOutcome(picker, entries, vault, reply);
      DetailsTypesRowValue(picker, entries, vault, reply);
      assert r.Success? && r.value != [] ==> r.value == [r.value[0]];
    } else if choice == NOTES {
      var r := NotesOutcome(picker, entries, vault, reply);
      NotesTypesNoteText(picker, entries, vault, reply);
      assert r.Success? && r.value != [] ==> r.value == [r.value[0]];
    } else if choice != SYNC && choice != LOCK {
      AutofillTypesOnlyText(entries, choice, vault);
    }
  }

  /** Nothing a session types is empty. */
  lemma SessionTypesOnlyText(picker: Result<string, ConfigError>, entries: seq<Entry>, vault: VaultCli,
                             reply: Menu.Invocation -> Menu.Reply)
    ensures var out := Session(picker, entries, vault, reply);
      out.Finished? ==> TypesOnlyText(out.actions)
  {
    var pick := Pick(picker, TopMenu(entries), "Bitwarden", reply);
    if pick.Success? && pick.value.Some? && pick.value.value != "" {
      DispatchTypesOnlyText(picker, entries, pick.value.value, vault, reply);
    }
  }

  /** Every text a run types is non-empty. */
  lemma RunTypesOnlyText(configLines: seq<string>, installed: string -> bool, wayland: bool, vault: VaultCli,
                         reply: Menu.Invocation -> Menu.Reply)
    ensures var out := MainOutcome(configLines, installed, wayland, vault, reply);
      out.Finished? ==> TypesOnlyText(out.actions)
  {
    var settings := ConfigFile.ParseConfig(configLines);
    var listing := Listing(vault.listOutput, vault.decodeList);
    if listing.Success? {
      SessionTypesOnlyText(ResolveMenu(Get(settings, MENU_KEY), installed, wayland), listing.value, vault, reply);
    }
  }

  /** Inside the session only the picker's own error can be notified. */
  lemma SessionNotifiesPickerError(picker: Result<string, ConfigError>, entries: seq<Entry>, vault: VaultCli,
                                   reply: Menu.Invocation -> Menu.Reply)
    ensures var out := Session(picker, entries, vault, reply);
      out.Notified? ==> picker.Failure? && out.message == picker.error.message
  {
  }

  /** Unlocking fails only for want of a pinentry program or of a picker to confirm it with. */
  lemma UnlockErrors(settings: map<string, string>, installed: string -> bool, wayland: bool, vault: VaultCli)
    ensures var r := Unlocked(settings, installed, wayland, vault);
      (r.Failure? ==> r.error == NO_MENU_ERROR || r.error == NO_PINENTRY_ERROR) &&
      (vault.unlockedExit == 0 ==> r == Success(true))
  {
    ResolveMenuSpec(Get(settings, MENU_KEY), installed, wayland);
    ResolvePinentrySpec(Get(settings, PINENTRY_KEY), installed);
  }

  /**
    A configuration error is never swallowed: a locked vault whose pinentry
    resolution fails notifies that error, and a run that reaches the top menu
    without a picker notifies the missing picker.
  */
  lemma RunNotifiesEveryConfigError(configLines: seq<string>, installed: string -> bool, wayland: bool,
                                    vault: VaultCli, reply: Menu.Invocation -> Menu.Reply)
    ensures var settings := ConfigFile.ParseConfig(configLines);
      var pinentry := PinentryOutcome(Get(settings, MENU_KEY), Get(settings, PINENTRY_KEY), installed, wayland, false);
      vault.unlockedExit != 0 && pinentry.Failure? ==>
        MainOutcome(configLines, installed, wayland, vault, reply) == Notified(pinentry.error.message)
    ensures var settings := ConfigFile.ParseConfig(configLines);
      Unlocked(settings, installed, wayland, vault) == Success(true) &&
      Listing(vault.listOutput, vault.decodeList).Success? &&
      ResolveMenu(Get(settings, MENU_KEY), installed, wayland).Failure? ==>
        MainOutcome(configLines, installed, wayland, vault, reply) == Notified(NO_MENU_ERROR.message)
  {
    var settings := ConfigFile.ParseConfig(configLines);
    ResolveMenuSpec(Get(settings, MENU_KEY), installed, wayland);
  }

  /**
    A run notifies only the two configuration errors, and one whose vault is already
    unlocked never reports a missing pinentry program.
  */
  lemma RunNotifiesConfigErrors(configLines: seq<string>, installed: string -> bool, wayland: bool, vault: VaultCli,
                                reply: Menu.Invocation -> Menu.Reply)
    ensures var out := MainOutcome(configLines, installed, wayland, vault, reply);
      (out.Notified? ==> out.message == NO_MENU_ERROR.message || out.message == NO_PINENTRY_ERROR.message) &&
      (out.Notified? && vault.unlockedExit == 0 ==> out.message == NO_MENU_ERROR.message)
  {
    var settings := ConfigFile.ParseConfig(configLines);
    var out := MainOutcome(configLines, installed, wayland, vault, reply);
    var unlocked := Unlocked(settings, installed, wayland, vault);
    UnlockErrors(settings, installed, wayland, vault);
    if unlocked == Success(true) {
      var picker := ResolveMenu(Get(settings, MENU_KEY), installed, wayland);
      var listing := Listing(vault.listOutput, vault.decodeList);
      if listing.Success? {
        assert out == Session(picker, listing.value, vault, reply);
        SessionNotifiesPickerError(picker, listing.value, vault, reply);
        ResolveMenuSpec(Get(settings, MENU_KEY), installed, wayland);
      }
    }
  }
}
