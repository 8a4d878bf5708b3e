/**
  The vault client (rbwm/vault.py): shaping the vault CLI's output into menu entries
  and menu rows, and the unlock short-circuit.  The CLI itself is not run: its exit
  codes and standard output are inputs, and JSON decoding is a function from the
  stripped output to the decoded value, `None` when the text does not decode.
*/
module Vault {
  import opened Wrappers
  import opened Text
  import Configuration

  /** One object of the `list --raw` array; `None` for a field that is absent or null. */
  datatype ListItem = ListItem(name: Option<string>, user: Option<string>, folder: Option<string>, kind: Option<string>)

  /** An entry of the listing with its menu label; `kind` is the listing's `type`. */
  datatype Entry = Entry(display: string, name: string, user: string, folder: string, kind: string)

  /** `json.loads` raised on the listing: nothing in the program catches it. */
  datatype ListingError = UndecodableListing

  /** A JSON value of an entry's `data` object, as far as the program tells values apart. */
  datatype Value = Null | Str(text: string) | EmptyList | OtherValue

  /** The `get --raw` object: its `notes` and its `data` object (`None` when absent or null). */
  datatype EntryRecord = EntryRecord(notes: Option<string>, data: Option<seq<(string, Value)>>)

  /** A row of the Details field menu: the label shown and the value typed. */
  datatype Field = Field(display: string, value: string)

  const EMPTY_RECORD: EntryRecord := EntryRecord(None, None)

  /** Labels longer than this many characters are cut. */
  const LABEL_LIMIT: nat := 50

  /** `name`, then ` (user)` when there is a user, then ` [folder]` when there is a folder. */
  function Label(name: string, user: string, folder: string): string {
    var withUser := if user != "" then name + " (" + user + ")" else name;
    if folder != "" then withUser + " [" + folder + "]" else withUser
  }

  function EntryOf(item: ListItem): Entry {
    var name := item.name.GetOr("");
    var user := item.user.GetOr("");
    var folder := item.folder.GetOr("");
    Entry(Label(name, user, folder), name, user, folder, item.kind.GetOr(""))
  }

  /**
    What `get_entries` returns for the listing command's output: blank output lists
    nothing, output that does not decode raises, and otherwise there is one entry per
    listed item, in the listing's order.
  */
  function Listing(stdout: string, decode: string -> Option<seq<ListItem>>): (r: Result<seq<Entry>, ListingError>)
    ensures Strip(stdout) == "" ==> r == Success([])
    ensures Strip(stdout) != "" ==> (r.Failure? <==> decode(Strip(stdout)).None?)
    ensures r.Success? && Strip(stdout) != "" ==>
      var items := decode(Strip(stdout)).value;
      |r.value| == |items| && forall i :: 0 <= i < |items| ==> r.value[i] == EntryOf(items[i])
  {
    var output := Strip(stdout);
    if output == "" then Success([])
    else match decode(output)
      case None => Failure(UndecodableListing)
      case Some(items) => Success(seq(|items|, i requires 0 <= i < |items| => EntryOf(items[i])))
  }

  /** The loop of `get_entries`: one entry per listed item, in order, each label grown piece by piece. */
  method BuildEntries(items: seq<ListItem>) returns (entries: seq<Entry>)
    ensures |entries| == |items|
    ensures forall k :: 0 <= k < |items| ==> entries[k] == EntryOf(items[k])
  {
    entries := [];
    for i := 0 to |items|
      invariant |entries| == i
      invariant forall k :: 0 <= k < i ==> entries[k] == EntryOf(items[k])
    {
      var item := items[i];
      var name := item.name.GetOr("");
      var user := item.user.GetOr("");
      var folder := item.folder.GetOr("");
      var display := name;
      if user != "" {
        display := display + " (" + user + ")";
      }
      if folder != "" {
        display := display + " [" + folder + "]";
      }
      entries := entries + [Entry(display, name, user, folder, item.kind.GetOr(""))];
    }
  }

  /** `get_entries`: strips and decodes the listing, then builds the entries. */
  method GetEntries(stdout: string, decode: string -> Option<seq<ListItem>>) returns (r: Result<seq<Entry>, ListingError>)
    ensures r == Listing(stdout, decode)
  {
    var output := Strip(stdout);
    var all: seq<ListItem> := [];
    if output != "" {
      var decoded := decode(output);
      if decoded.None? {
        return Failure(UndecodableListing);
      }
      all := decoded.value;
    }
    var entries := BuildEntries(all);
    assert entries == seq(|all|, i requires 0 <= i < |all| => EntryOf(all[i]));
    return Success(entries);
  }

  /**
    The label shows the name first, the user in parentheses only when there is one,
    and the folder in brackets only when there is one, in that order.
  */
  lemma LabelParts(name: string, user: string, folder: string)
    ensures var d := Label(name, user, folder);
      var u := if user != "" then |user| + 3 else 0;
      |d| == |name| + u + (if folder != "" then |folder| + 3 else 0) &&
      d[..|name|] == name &&
      (user != "" ==> d[|name|..|name| + u] == " (" + user + ")") &&
      (folder != "" ==> d[|name| + u..] == " [" + folder + "]") &&
      (user == "" && folder == "" ==> d == name)
  {
  }

  /** Two different entries can share a label, so a label does not identify an entry. */
  lemma LabelsCanCollide()
    ensures EntryOf(ListItem(Some("Bank (me)"), None, None, None)) != EntryOf(ListItem(Some("Bank"), Some("me"), None, None))
    ensures EntryOf(ListItem(Some("Bank (me)"), None, None, None)).display ==
            EntryOf(ListItem(Some("Bank"), Some("me"), None, None)).display
  {
  }

  /**
    `get_entry_data`, given the get command's output: blank or undecodable output
    gives the empty record; it never fails.
  */
  function GetEntryData(stdout: string, decode: string -> Option<EntryRecord>): (record: EntryRecord)
    ensures Strip(stdout) == "" ==> record == EMPTY_RECORD
    ensures Strip(stdout) != "" && decode(Strip(stdout)).None? ==> record == EMPTY_RECORD
    ensures Strip(stdout) != "" && decode(Strip(stdout)).Some? ==> record == decode(Strip(stdout)).value
  {
    var output := Strip(stdout);
    if output == "" then EMPTY_RECORD else decode(output).GetOr(EMPTY_RECORD)
  }

  /** `None`, `""` and `[]`: the values that give no row. */
  predicate Blank(v: Value) {
    v == Null || v == Str("") || v == EmptyList
  }

  /** The label of an ordinary field: `key: value`, the value cut to 50 characters plus `...`. */
  function FieldLabel(key: string, value: string): string {
    if |value| > LABEL_LIMIT then key + ": " + value[..LABEL_LIMIT] + "..." else key + ": " + value
  }

  /**
    The row one `data` entry gives, `totp` being the code command's output: blank
    values give none; a string password gives the row `password` with the whole
    password; a `totp` key gives the row `totp` with the stripped code whenever that is
    not blank, whatever its own value; any other string gives `key: value` (cut) with
    the whole string.
  */
  function RowOf(key: string, v: Value, totp: string): (row: Option<Field>)
    ensures Blank(v) ==> row == None
    ensures !Blank(v) && key == "password" ==> row == (if v.Str? then Some(Field("password", v.text)) else None)
    ensures !Blank(v) && key == "totp" ==> (row.Some? <==> Strip(totp) != "")
    ensures !Blank(v) && key == "totp" && row.Some? ==> row.value == Field("totp", Strip(totp))
    ensures !Blank(v) && key != "password" && key != "totp" ==>
      (row.Some? <==> v.Str?) && (v.Str? ==> row.value.value == v.text && row.value.display == FieldLabel(key, v.text))
  {
    if Blank(v) then None
    else if key == "password" then (if v.Str? then Some(Field("password", v.text)) else None)
    else if key == "totp" then (if Strip(totp) != "" then Some(Field("totp", Strip(totp))) else None)
    else if v.Str? then Some(Field(FieldLabel(key, v.text), v.text))
    else None
  }

  function RowsOf(pairs: seq<(string, Value)>, totp: string): seq<Field> {
    if pairs == [] then []
    else
      var last := pairs[|pairs| - 1];
      RowsOf(pairs[..|pairs| - 1], totp) +
        (match RowOf(last.0, last.1, totp) case None => [] case Some(f) => [f])
  }

  /** The rows of an entry: none without a `data` object, otherwise those of its entries in order. */
  function EntryFields(record: EntryRecord, totp: string): seq<Field> {
    if record.data.None? then [] else RowsOf(record.data.value, totp)
  }

  /**
    `get_entry_fields`, given the entry's record and the output of its code command:
    builds the rows one `data` entry at a time.
  */
  method GetEntryFields(record: EntryRecord, totp: string) returns (fields: seq<Field>)
    ensures record.data.None? ==> fields == []
    ensures fields == EntryFields(record, totp)
  {
    if record.data.None? || record.data.value == [] {
      return [];
    }
    var pairs := record.data.value;
    fields := [];
    for i := 0 to |pairs|
      invariant fields == RowsOf(pairs[..i], totp)
    {
      assert pairs[..i + 1][..i] == pairs[..i];
      var (key, value) := pairs[i];
      if value == Null || value == Str("") || value == EmptyList {
        continue;
      }
      if key == "password" {
        if value.Str? {
          fields := fields + [Field("password", value.text)];
        }
      } else if key == "totp" {
        var code := Strip(totp);
        if code != "" {
          fields := fields + [Field("totp", code)];
        }
      } else if value.Str? {
        var display := if |value.text| > LABEL_LIMIT then key + ": " + value.text[..LABEL_LIMIT] + "..."
                       else key + ": " + value.text;
        fields := fields + [Field(display, value.text)];
      }
    }
    assert pairs[..|pairs|] == pairs;
  }

  /** The rows of a concatenation are the rows of each part, in order. */
  lemma {:induction false} RowsOfAppend(a: seq<(string, Value)>, b: seq<(string, Value)>, totp: string)
    ensures RowsOf(a + b, totp) == RowsOf(a, totp) + RowsOf(b, totp)
  {
    if b != [] {
      RowsOfAppend(a, b[..|b| - 1], totp);
      assert (a + b)[..|a + b| - 1] == a + b[..|b| - 1];
    } else {
      assert a + b == a;
    }
  }

  /** Every row comes from one non-blank entry of `data`, in the way `RowOf` states. */
  lemma {:induction false} RowsComeFromData(pairs: seq<(string, Value)>, totp: string, f: Field)
    requires f in RowsOf(pairs, totp)
    ensures exists i :: 0 <= i < |pairs| && !Blank(pairs[i].1) && RowOf(pairs[i].0, pairs[i].1, totp) == Some(f)
  {
    var prefix := pairs[..|pairs| - 1];
    var last := pairs[|pairs| - 1];
    if f in RowsOf(prefix, totp) {
      RowsComeFromData(prefix, totp, f);
      var i :| 0 <= i < |prefix| && !Blank(prefix[i].1) && RowOf(prefix[i].0, prefix[i].1, totp) == Some(f);
      assert pairs[i] == prefix[i];
    } else {
      assert RowOf(last.0, last.1, totp) == Some(f);
    }
  }

  /** No row carries an empty value, so choosing a row always types something. */
  lemma RowValuesNonEmpty(pairs: seq<(string, Value)>, totp: string, f: Field)
    requires f in RowsOf(pairs, totp)
    ensures f.value != ""
  {
    RowsComeFromData(pairs, totp, f);
    var i :| 0 <= i < |pairs| && !Blank(pairs[i].1) && RowOf(pairs[i].0, pairs[i].1, totp) == Some(f);
    var _ := StripSpec(totp);
  }

  /** A non-blank string under any key but `totp` always gives its row. */
  lemma {:induction false} StringFieldsListed(pairs: seq<(string, Value)>, totp: string, i: nat)
    requires i < |pairs| && pairs[i].1.Str? && pairs[i].1.text != "" && pairs[i].0 != "totp"
    ensures RowOf(pairs[i].0, pairs[i].1, totp).value in RowsOf(pairs, totp)
  {
    var prefix := pairs[..|pairs| - 1];
    if i < |pairs| - 1 {
      assert prefix[i] == pairs[i];
      StringFieldsListed(prefix, totp, i);
    }
  }

  /**
    A field label is `key: ` followed by the whole value when that has at most 50
    characters, and otherwise by its first 50 characters and `...`.
  */
  lemma FieldLabelTruncates(key: string, value: string)
    ensures var shown := FieldLabel(key, value);
      shown[..|key| + 2] == key + ": " &&
      (|value| <= LABEL_LIMIT ==> shown == key + ": " + value) &&
      (|value| > LABEL_LIMIT ==> |shown| == |key| + 55 && shown[|key| + 2..|key| + 52] == value[..50] &&
                                 shown[|key| + 52..] == "...")
  {
  }

  /** A record whose data holds a password and a null totp gives exactly the password row. */
  lemma PasswordOnlyRecord(totp: string)
    ensures RowsOf([("password", Str("p1")), ("totp", Null)], totp) == [Field("password", "p1")]
  {
    var pairs := [("password", Str("p1")), ("totp", Null)];
    assert pairs[..1] == [("password", Str("p1"))];
    assert pairs[..1][..0] == [];
    assert RowOf("totp", Null, totp) == None;
    assert RowOf("password", Str("p1"), totp) == Some(Field("password", "p1"));
    assert RowsOf(pairs[..1], totp) == RowsOf([], totp) + [Field("password", "p1")];
    assert RowsOf(pairs, totp) == RowsOf(pairs[..1], totp) + [];
  }

  /**
    `ensure_unlocked`: an unlocked vault (status check exit code zero) succeeds at once
    without resolving a pinentry program; otherwise `unlock` resolves one, which may
    raise, and runs the unlock command with it as `PINENTRY_PROGRAM`; success is that
    command's exit code zero.
  */
  method EnsureUnlocked(config: Configuration.Config, installed: string -> bool, wayland: bool,
                        unlockedExit: int, unlockExit: int)
    returns (r: Result<bool, Configuration.ConfigError>, pinentry: Option<string>)
    requires config.Valid()
    modifies config`pinentryFallbackConfirmed, config`prompts
    ensures config.Valid()
    ensures unlockedExit == 0 ==> r == Success(true) && pinentry == None && unchanged(config)
    ensures unlockedExit != 0 ==>
      var resolved := Configuration.PinentryOutcome(config.Lookup(Configuration.MENU_KEY),
        config.Lookup(Configuration.PINENTRY_KEY), installed, wayland, old(config.pinentryFallbackConfirmed));
      (resolved.Failure? ==> r == Failure(resolved.error) && pinentry == None) &&
      (resolved.Success? ==> r == Success(unlockExit == 0) && pinentry == Some(resolved.value))
    ensures unlockedExit != 0 ==>
      var shown := Configuration.PinentryPrompts(config.Lookup(Configuration.MENU_KEY),
        config.Lookup(Configuration.PINENTRY_KEY), installed, wayland, old(config.pinentryFallbackConfirmed));
      config.prompts == old(config.prompts) + shown &&
      config.pinentryFallbackConfirmed == (old(config.pinentryFallbackConfirmed) || shown != [])
  {
    if unlockedExit == 0 {
      return Success(true), None;
    }
    var cmd := config.GetPinentryCmd(installed, wayland);
    if cmd.Failure? {
      return Failure(cmd.error), None;
    }
    return Success(unlockExit == 0), Some(cmd.value);
  }
}
