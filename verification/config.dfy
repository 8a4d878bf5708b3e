/**
  Configuration (rbwm/config.py): reading the `KEY=VALUE` file and resolving which
  picker and which pinentry program to use, falling back to the first installed
  program of a fixed priority list and confirming each kind of fallback at most once
  per session.  Whether a program is installed is the predicate `installed`; whether
  the session is a Wayland one (a non-empty `WAYLAND_DISPLAY`) is the flag `wayland`.
*/
module Configuration {
  import opened Wrappers
  import opened Text
  import opened ConfigFile

  const MENU_PROGRAMS: seq<string> := ["dmenu", "bemenu", "rofi", "wmenu", "fuzzel", "tofi"]
  /** The order tried instead of `MENU_PROGRAMS` in a Wayland session. */
  const WAYLAND_MENU_ORDER: seq<string> := ["fuzzel", "tofi", "wmenu", "bemenu", "rofi", "dmenu"]
  const PINENTRY_PROGRAMS: seq<string> :=
    ["pinentry-dmenu", "pinentry-curses", "pinentry-gnome3", "pinentry-qt", "pinentry"]

  const MENU_KEY: string := "MENU_CMD"
  const PINENTRY_KEY: string := "PINENTRY_CMD"
  /** The configured picker value that asks for detection instead of naming a program. */
  const AUTO: string := "auto"

  /** The user-facing `ConfigError`, carrying its message. */
  datatype ConfigError = ConfigError(message: string)

  /** Raised when no picker is installed; the message lists `MENU_PROGRAMS`. */
  const NO_MENU_ERROR: ConfigError :=
    ConfigError("No menu program found. Install one of: dmenu, bemenu, rofi, wmenu, fuzzel, tofi")

  /** Raised when no pinentry program is installed; the message lists `PINENTRY_PROGRAMS`. */
  const NO_PINENTRY_ERROR: ConfigError :=
    ConfigError("No pinentry program found. Install one of: pinentry-dmenu, pinentry-curses, pinentry-gnome3, pinentry-qt, pinentry")

  // ---------------------------------------------------------------------------
  // Program resolution

  /** The first program of `order` that is installed, if any. */
  function FirstInstalled(order: seq<string>, installed: string -> bool): Option<string> {
    if order == [] then None
    else if installed(order[0]) then Some(order[0])
    else FirstInstalled(order[1..], installed)
  }

  /**
    `FirstInstalled` finds nothing exactly when no program of the order is installed,
    and otherwise the installed program at the smallest position.
  */
  lemma {:induction false} FirstInstalledIsFirst(order: seq<string>, installed: string -> bool)
    ensures FirstInstalled(order, installed).None? <==>
      forall i :: 0 <= i < |order| ==> !installed(order[i])
    ensures FirstInstalled(order, installed).Some? ==>
      exists i :: 0 <= i < |order| && order[i] == FirstInstalled(order, installed).value &&
        installed(order[i]) && forall j :: 0 <= j < i ==> !installed(order[j])
  {
    if order != [] && !installed(order[0]) {
      FirstInstalledIsFirst(order[1..], installed);
      if FirstInstalled(order, installed).Some? {
        var i :| 0 <= i < |order[1..]| && order[1..][i] == FirstInstalled(order, installed).value &&
          installed(order[1..][i]) && forall j :: 0 <= j < i ==> !installed(order[1..][j]);
        assert order[i + 1] == order[1..][i];
        forall j | 0 <= j < i + 1 ensures !installed(order[j]) {
          if j > 0 { assert order[j] == order[1..][j - 1]; }
        }
      } else {
        forall i | 0 <= i < |order| ensures !installed(order[i]) {
          if i > 0 { assert order[i] == order[1..][i - 1]; }
        }
      }
    }
  }

  /** The scan over a priority list, stopping at the first installed program. */
  method FindInstalled(order: seq<string>, installed: string -> bool) returns (found: Option<string>)
    ensures found == FirstInstalled(order, installed)
  {
    found := None;
    var i := 0;
    while i < |order|
      invariant 0 <= i <= |order|
      invariant FirstInstalled(order, installed) == FirstInstalled(order[i..], installed)
    {
      if installed(order[i]) {
        found := Some(order[i]);
        break;
      }
      assert order[i..][1..] == order[i + 1..];
      i := i + 1;
    }
  }

  /** `System.has_command`; a key missing from the file counts as not installed. */
  predicate HasCommand(configured: Option<string>, installed: string -> bool) {
    configured.Some? && installed(configured.value)
  }

  function MenuOrder(wayland: bool): seq<string> {
    if wayland then WAYLAND_MENU_ORDER else MENU_PROGRAMS
  }

  /** The picker falls back when it is `auto` or not installed. */
  predicate MenuFallsBack(configured: Option<string>, installed: string -> bool) {
    configured == Some(AUTO) || !HasCommand(configured, installed)
  }

  /** The picker `get_menu_cmd` returns (leaving out its confirmation prompt). */
  function ResolveMenu(configured: Option<string>, installed: string -> bool, wayland: bool): Result<string, ConfigError> {
    if MenuFallsBack(configured, installed) then
      match FirstInstalled(MenuOrder(wayland), installed)
      case None => Failure(NO_MENU_ERROR)
      case Some(program) => Success(program)
    else Success(configured.value)
  }

  /** The pinentry program `get_pinentry_cmd` settles on (before its confirmation step). */
  function ResolvePinentry(configured: Option<string>, installed: string -> bool): Result<string, ConfigError> {
    if HasCommand(configured, installed) then Success(configured.value)
    else
      match FirstInstalled(PINENTRY_PROGRAMS, installed)
      case None => Failure(NO_PINENTRY_ERROR)
      case Some(program) => Success(program)
  }

  /**
    The picker resolution: an installed configured value other than `auto` is kept as
    it is; otherwise the first installed program of the session's order is chosen,
    and only when there is none does resolution fail.  A resolved picker is always
    installed.
  */
  lemma ResolveMenuSpec(configured: Option<string>, installed: string -> bool, wayland: bool)
    ensures var r := ResolveMenu(configured, installed, wayland);
      var order := MenuOrder(wayland);
      (!MenuFallsBack(configured, installed) ==> r == Success(configured.value)) &&
      (MenuFallsBack(configured, installed) ==>
        (r.Failure? <==> forall i :: 0 <= i < |order| ==> !installed(order[i])) &&
        (r.Failure? ==> r.error == NO_MENU_ERROR) &&
        (r.Success? ==> exists i :: 0 <= i < |order| && order[i] == r.value &&
                                    forall j :: 0 <= j < i ==> !installed(order[j]))) &&
      (r.Success? ==> installed(r.value))
  {
    FirstInstalledIsFirst(MenuOrder(wayland), installed);
  }

  /**
    The pinentry resolution: an installed configured program is kept; otherwise the
    first installed entry of `PINENTRY_PROGRAMS` is chosen, and only when there is
    none does resolution fail.  A resolved pinentry program is always installed.
  */
  lemma ResolvePinentrySpec(configured: Option<string>, installed: string -> bool)
    ensures var r := ResolvePinentry(configured, installed);
      (HasCommand(configured, installed) ==> r == Success(configured.value)) &&
      (!HasCommand(configured, installed) ==>
        (r.Failure? <==> forall i :: 0 <= i < |PINENTRY_PROGRAMS| ==> !installed(PINENTRY_PROGRAMS[i])) &&
        (r.Failure? ==> r.error == NO_PINENTRY_ERROR) &&
        (r.Success? ==> exists i :: 0 <= i < |PINENTRY_PROGRAMS| && PINENTRY_PROGRAMS[i] == r.value &&
                                    forall j :: 0 <= j < i ==> !installed(PINENTRY_PROGRAMS[j]))) &&
      (r.Success? ==> installed(r.value))
  {
    FirstInstalledIsFirst(PINENTRY_PROGRAMS, installed);
  }

  /** The menu fallback is confirmed only for a non-empty, non-`auto` value, once. */
  predicate MenuPromptDue(configured: Option<string>, confirmed: bool) {
    configured.Some? && configured.value != "" && configured.value != AUTO && !confirmed
  }

  /** How Python's f-string renders the configured value: a missing one prints as `None`. */
  function Shown(configured: Option<string>): string {
    match configured
    case None => "None"
    case Some(value) => value
  }

  /** The prompt of the confirmation menu announcing that `missing` was replaced by `used`. */
  function Announcement(missing: string, used: string): string {
    missing + " not found, using " + used
  }

  /**
    What `get_pinentry_cmd` returns: the resolved pinentry program, unless the
    confirmation is still due and no picker can be found to show it.
  */
  function PinentryOutcome(menuConfigured: Option<string>, pinConfigured: Option<string>,
                           installed: string -> bool, wayland: bool, confirmed: bool): Result<string, ConfigError> {
    match ResolvePinentry(pinConfigured, installed)
    case Failure(e) => Failure(e)
    case Success(program) =>
      if HasCommand(pinConfigured, installed) || confirmed then Success(program)
      else
        match ResolveMenu(menuConfigured, installed, wayland)
        case Failure(e) => Failure(e)
        case Success(_) => Success(program)
  }

  /** The value of `key` in the settings, `None` when the file does not set it. */
  function Get(settings: map<string, string>, key: string): Option<string> {
    if key in settings then Some(settings[key]) else None
  }

  /** Which fallback a confirmation prompt announced. */
  datatype Fallback = MenuFallback | PinentryFallback

  /** A confirmation prompt: the one-item `Ok` menu shown through `picker` with `message` as its prompt. */
  datatype Prompt = Prompt(kind: Fallback, picker: string, message: string)

  function CountKind(prompts: seq<Prompt>, kind: Fallback): nat {
    if prompts == [] then 0
    else CountKind(prompts[..|prompts| - 1], kind) + (if prompts[|prompts| - 1].kind == kind then 1 else 0)
  }

  lemma CountKindAppend(prompts: seq<Prompt>, p: Prompt, kind: Fallback)
    ensures CountKind(prompts + [p], kind) == CountKind(prompts, kind) + (if p.kind == kind then 1 else 0)
  {
    assert (prompts + [p])[..|prompts|] == prompts;
  }

  /**
    The prompts `get_menu_cmd` shows: the confirmation of a fallback from a non-empty,
    non-`auto` value that is not yet confirmed, through the picker fallen back to.
  */
  function MenuPrompts(configured: Option<string>, installed: string -> bool, wayland: bool, confirmed: bool): seq<Prompt> {
    match ResolveMenu(configured, installed, wayland)
    case Failure(_) => []
    case Success(program) =>
      if MenuFallsBack(configured, installed) && MenuPromptDue(configured, confirmed)
      then [Prompt(MenuFallback, program, Announcement(configured.value, program))]
      else []
  }

  /**
    The prompts `get_pinentry_cmd` shows: the confirmation of a fallback that is not
    yet confirmed, through the picker it resolves without `get_menu_cmd`'s own prompt.
  */
  function PinentryPrompts(menuConfigured: Option<string>, pinConfigured: Option<string>,
                           installed: string -> bool, wayland: bool, confirmed: bool): seq<Prompt> {
    if HasCommand(pinConfigured, installed) || confirmed then []
    else
      match (ResolvePinentry(pinConfigured, installed), ResolveMenu(menuConfigured, installed, wayland))
      case (Success(program), Success(picker)) =>
        [Prompt(PinentryFallback, picker, Announcement(Shown(pinConfigured), program))]
      case _ => []
  }

  /**
    `get_menu_cmd` shows at most one prompt, a menu fallback's, and none once the menu
    flag is set; so the flag it sets after showing one keeps every later call silent.
  */
  lemma MenuPromptsOnce(configured: Option<string>, installed: string -> bool, wayland: bool, confirmed: bool)
    ensures var shown := MenuPrompts(configured, installed, wayland, confirmed);
      |shown| <= 1 && (shown != [] ==> shown[0].kind == MenuFallback && !confirmed) &&
      MenuPrompts(configured, installed, wayland, confirmed || shown != []) == []
  {
  }

  /**
    `get_pinentry_cmd` shows at most one prompt, a pinentry fallback's, and none once
    the pinentry flag is set; so the flag it sets keeps every later call silent.
  */
  lemma PinentryPromptsOnce(menuConfigured: Option<string>, pinConfigured: Option<string>,
                            installed: string -> bool, wayland: bool, confirmed: bool)
    ensures var shown := PinentryPrompts(menuConfigured, pinConfigured, installed, wayland, confirmed);
      |shown| <= 1 && (shown != [] ==> shown[0].kind == PinentryFallback && !confirmed) &&
      PinentryPrompts(menuConfigured, pinConfigured, installed, wayland, confirmed || shown != []) == []
  {
  }

  /**
    The configuration of one run: the settings read from the file and the two session
    flags recording that a fallback has been confirmed.  The ghost `prompts` is the
    trace of confirmation prompts shown so far.
  */
  class Config {
    var settings: map<string, string>
    var menuFallbackConfirmed: bool
    var pinentryFallbackConfirmed: bool
    ghost var prompts: seq<Prompt>

    /** Each flag is set exactly when its one confirmation prompt has been shown. */
    ghost predicate Valid()
      reads this`prompts, this`menuFallbackConfirmed, this`pinentryFallbackConfirmed
    {
      CountKind(prompts, MenuFallback) == (if menuFallbackConfirmed then 1 else 0) &&
      CountKind(prompts, PinentryFallback) == (if pinentryFallbackConfirmed then 1 else 0)
    }

    constructor ()
      ensures Valid()
      ensures settings == map[] && !menuFallbackConfirmed && !pinentryFallbackConfirmed && prompts == []
    {
      settings := map[];
      menuFallbackConfirmed := false;
      pinentryFallbackConfirmed := false;
      prompts := [];
    }

    /** `self._config.get(key)`. */
    function Lookup(key: string): Option<string>
      reads this`settings
    {
      Get(settings, key)
    }

    /** Reads the configuration file, given as its lines. */
    method Load(lines: seq<string>)
      modifies this`settings
      ensures settings == ParseConfig(lines)
    {
      settings := map[];
      ghost var parsed := ParsedLines(lines);
      for i := 0 to |lines|
        invariant settings == Settings(parsed[..i])
      {
        var line := Strip(lines[i]);
        SettingsStep(parsed, i);
        if line == "" || line[0] == '#' {
          assert parsed[i] == None;
        } else if '=' in line {
          var cut := IndexOf(line, '=');
          var key, value := Strip(line[..cut]), Strip(line[cut + 1..]);
          assert parsed[i] == Some((key, value));
          settings := settings[key := value];
        } else {
          assert parsed[i] == None;
        }
      }
      assert parsed[..|lines|] == parsed;
    }

    /**
      `get_menu_cmd`: the resolved picker; the first confirmed fallback of a session
      shows one confirmation prompt and sets the menu flag.  The pinentry flag and the
      settings are untouched.
    */
    method GetMenuCmd(installed: string -> bool, wayland: bool) returns (r: Result<string, ConfigError>)
      requires Valid()
      modifies this`menuFallbackConfirmed, this`prompts
      ensures Valid()
      ensures r == ResolveMenu(Lookup(MENU_KEY), installed, wayland)
      ensures var shown := MenuPrompts(Lookup(MENU_KEY), installed, wayland, old(menuFallbackConfirmed));
        prompts == old(prompts) + shown && menuFallbackConfirmed == (old(menuFallbackConfirmed) || shown != [])
    {
      var configured := Lookup(MENU_KEY);
      if configured == Some(AUTO) || !HasCommand(configured, installed) {
        var found := FindInstalled(MenuOrder(wayland), installed);
        if found.None? {
          return Failure(NO_MENU_ERROR);
        }
        var menuCmd := found.value;
        if configured.Some? && configured.value != "" && configured.value != AUTO && !menuFallbackConfirmed {
          var shown := Prompt(MenuFallback, menuCmd, Announcement(configured.value, menuCmd));
          CountKindAppend(prompts, shown, MenuFallback);
          CountKindAppend(prompts, shown, PinentryFallback);
          prompts := prompts + [shown];
          menuFallbackConfirmed := true;
        }
        return Success(menuCmd);
      }
      return Success(configured.value);
    }

    /**
      The picker lookup `get_pinentry_cmd` performs inline for its own confirmation:
      the steps of `get_menu_cmd` without that method's prompt, changing nothing.
    */
    method ResolvePickerSilently(installed: string -> bool, wayland: bool) returns (r: Result<string, ConfigError>)
      ensures r == ResolveMenu(Lookup(MENU_KEY), installed, wayland)
    {
      var menuConfigured := Lookup(MENU_KEY);
      if menuConfigured == Some(AUTO) || !HasCommand(menuConfigured, installed) {
        var found := FindInstalled(MenuOrder(wayland), installed);
        if found.None? {
          return Failure(NO_MENU_ERROR);
        }
        return Success(found.value);
      }
      return Success(menuConfigured.value);
    }

    /**
      `get_pinentry_cmd`: the resolved pinentry program.  Its first fallback of a
      session resolves a picker inline, exactly as `get_menu_cmd` would but without
      that method's own prompt, shows one confirmation and sets the pinentry flag.
      It never reads or changes the menu flag.
    */
    method GetPinentryCmd(installed: string -> bool, wayland: bool) returns (r: Result<string, ConfigError>)
      requires Valid()
      modifies this`pinentryFallbackConfirmed, this`prompts
      ensures Valid()
      ensures r == PinentryOutcome(Lookup(MENU_KEY), Lookup(PINENTRY_KEY), installed, wayland, old(pinentryFallbackConfirmed))
      ensures var shown := PinentryPrompts(Lookup(MENU_KEY), Lookup(PINENTRY_KEY), installed, wayland,
                                           old(pinentryFallbackConfirmed));
        prompts == old(prompts) + shown && pinentryFallbackConfirmed == (old(pinentryFallbackConfirmed) || shown != [])
    {
      var configured := Lookup(PINENTRY_KEY);
      if !HasCommand(configured, installed) {
        var found := FindInstalled(PINENTRY_PROGRAMS, installed);
        if found.None? {
          return Failure(NO_PINENTRY_ERROR);
        }
        var pinentryCmd := found.value;
        assert ResolvePinentry(configured, installed) == Success(pinentryCmd);
        if !pinentryFallbackConfirmed {
          var picker := ResolvePickerSilently(installed, wayland);
          if picker.Failure? {
            return Failure(picker.error);
          }
          var shown := Prompt(PinentryFallback, picker.value, Announcement(Shown(configured), pinentryCmd));
          CountKindAppend(prompts, shown, MenuFallback);
          CountKindAppend(prompts, shown, PinentryFallback);
          prompts := prompts + [shown];
          pinentryFallbackConfirmed := true;
        }
        return Success(pinentryCmd);
      }
      return Success(configured.value);
    }
  }
}
