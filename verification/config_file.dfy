/**
  The configuration file read by `Config.load` (rbwm/config.py): one `KEY=VALUE`
  setting per line, with blank lines and `#` comments skipped.  The file is given as
  its lines; opening it, and the setup wizard run when it is missing, are not modelled.
*/
module ConfigFile {
  import opened Wrappers
  import opened Text

  /**
    What one line of the file contributes: nothing for a blank line, a comment or a
    line without `=`; otherwise the trimmed text before the first `=` and the trimmed
    text after it.
  */
  function ParseLine(line: string): Option<(string, string)> {
    var s := Strip(line);
    if s == "" || s[0] == '#' || '=' !in s then None
    else
      var i := IndexOf(s, '=');
      Some((Strip(s[..i]), Strip(s[i + 1..])))
  }

  /** What each line contributes, line by line. */
  function ParsedLines(lines: seq<string>): (parsed: seq<Option<(string, string)>>)
    ensures |parsed| == |lines| && forall i :: 0 <= i < |lines| ==> parsed[i] == ParseLine(lines[i])
  {
    seq(|lines|, i requires 0 <= i < |lines| => ParseLine(lines[i]))
  }

  /** One line's contribution applied to the settings read so far. */
  function Assign(settings: map<string, string>, contribution: Option<(string, string)>): map<string, string> {
    match contribution
    case None => settings
    case Some((key, value)) => settings[key := value]
  }

  /** The settings after applying the contributions in order; a later key overwrites. */
  function Settings(parsed: seq<Option<(string, string)>>): map<string, string> {
    if parsed == [] then map[]
    else Assign(Settings(parsed[..|parsed| - 1]), parsed[|parsed| - 1])
  }

  /** Reading one more line applies its contribution to the settings read so far. */
  lemma SettingsStep(parsed: seq<Option<(string, string)>>, i: nat)
    requires i < |parsed|
    ensures Settings(parsed[..i + 1]) == Assign(Settings(parsed[..i]), parsed[i])
  {
    assert parsed[..i + 1][..i] == parsed[..i];
  }

  /** The settings read from the file's lines, first line first. */
  function ParseConfig(lines: seq<string>): map<string, string> {
    Settings(ParsedLines(lines))
  }

  /**
    A line counts exactly when, once stripped, it is not empty, is not a comment and
    holds an `=`; it is then cut at its FIRST `=`, so the value may hold further `=`.
  */
  lemma ParseLineSplitsAtFirstEquals(line: string)
    ensures var s := Strip(line);
      (ParseLine(line).Some? <==> s != "" && s[0] != '#' && '=' in s) &&
      (ParseLine(line).Some? ==>
        exists i :: 0 <= i < |s| && s[i] == '=' && '=' !in s[..i] &&
          ParseLine(line).value == (Strip(s[..i]), Strip(s[i + 1..])))
  {
  }

  /** `KEY=VALUE` has no whitespace at its ends when neither part has. */
  lemma SettingLineTrimmed(key: string, value: string)
    requires key != "" && Trimmed(key) && Trimmed(value)
    ensures Trimmed(key + "=" + value)
  {
    var s := key + "=" + value;
    assert s[0] == key[0];
    if value != [] {
      assert s[|s| - 1] == value[|value| - 1];
    }
  }

  /** A trimmed `KEY=VALUE` line whose key has no `=` is cut right after the key. */
  lemma TrimmedSettingParses(s: string, key: string, value: string)
    requires s == key + "=" + value && Strip(s) == s && '=' !in key && s != "" && s[0] != '#'
    requires Strip(key) == key && Strip(value) == value
    ensures ParseLine(s) == Some((key, value))
  {
    IndexAfterPlain(key, '=', value);
    var i := IndexOf(s, '=');
    assert i == |key|;
    assert s[..i] == key;
    assert s[i + 1..] == value;
    assert ParseLine(s) == Some((Strip(s[..i]), Strip(s[i + 1..])));
  }

  /**
    A setting written the way the setup wizard writes it, `KEY=VALUE` with a key that
    has no `=`, does not start a comment and carries no surrounding whitespace, reads
    back as exactly that key and value, even when the value itself holds `=`.
  */
  lemma WrittenSettingReadsBack(key: string, value: string)
    requires key != "" && key[0] != '#' && '=' !in key
    requires Trimmed(key) && Trimmed(value)
    ensures ParseLine(key + "=" + value) == Some((key, value))
  {
    var s := key + "=" + value;
    assert s != "" && s[0] != '#' by {
      assert s[0] == key[0];
    }
    assert Strip(s) == s by {
      SettingLineTrimmed(key, value);
      StripTrimmed(s);
    }
    assert Strip(key) == key && Strip(value) == value by {
      StripTrimmed(key);
      StripTrimmed(value);
    }
    TrimmedSettingParses(s, key, value);
  }

  lemma {:induction false} SkippedContributionDropped(before: seq<Option<(string, string)>>,
                                                      after: seq<Option<(string, string)>>)
    ensures Settings(before + [None] + after) == Settings(before + after)
  {
    if after == [] {
      assert before + [None] + after == before + [None];
      assert (before + [None])[..|before|] == before;
      assert before + after == before;
    } else {
      SkippedContributionDropped(before, after[..|after| - 1]);
      assert (before + [None] + after)[..|before| + |after|] == before + [None] + after[..|after| - 1];
      assert (before + after)[..|before| + |after| - 1] == before + after[..|after| - 1];
    }
  }

  lemma ParsedLinesAppend(a: seq<string>, b: seq<string>)
    ensures ParsedLines(a + b) == ParsedLines(a) + ParsedLines(b)
  {
    var pa, pb, pab := ParsedLines(a), ParsedLines(b), ParsedLines(a + b);
    forall i | 0 <= i < |a + b| ensures pab[i] == (pa + pb)[i] {
      if i < |a| {
        assert (a + b)[i] == a[i];
      } else {
        assert (a + b)[i] == b[i - |a|];
      }
    }
  }

  /** Lines that contribute nothing can be dropped from anywhere in the file. */
  lemma InertLineDropped(before: seq<string>, line: string, after: seq<string>)
    requires ParseLine(line).None?
    ensures ParseConfig(before + [line] + after) == ParseConfig(before + after)
  {
    var pa, pb := ParsedLines(before), ParsedLines(after);
    assert ParsedLines(before + [line] + after) == pa + [None] + pb by {
      ParsedLinesAppend(before + [line], after);
      ParsedLinesAppend(before, [line]);
      assert ParsedLines([line]) == [None];
    }
    assert ParsedLines(before + after) == pa + pb by {
      ParsedLinesAppend(before, after);
    }
    SkippedContributionDropped(pa, pb);
  }

  /** The key a contribution assigns, if any. */
  function KeyOf(parsed: Option<(string, string)>): Option<string> {
    match parsed
    case None => None
    case Some((key, _)) => Some(key)
  }

  lemma {:induction false} SettingKeysAssigned(parsed: seq<Option<(string, string)>>, key: string)
    requires key in Settings(parsed)
    ensures exists i :: 0 <= i < |parsed| && KeyOf(parsed[i]) == Some(key)
  {
    var prefix := parsed[..|parsed| - 1];
    if KeyOf(parsed[|parsed| - 1]) != Some(key) {
      SettingKeysAssigned(prefix, key);
      var i :| 0 <= i < |prefix| && KeyOf(prefix[i]) == Some(key);
      assert parsed[i] == prefix[i];
    }
  }

  /** Every stored key was assigned by some line of the file. */
  lemma KeysComeFromLines(lines: seq<string>, key: string)
    requires key in ParseConfig(lines)
    ensures exists i :: 0 <= i < |lines| && KeyOf(ParseLine(lines[i])) == Some(key)
  {
    SettingKeysAssigned(ParsedLines(lines), key);
  }

  lemma {:induction false} LastContributionWins(parsed: seq<Option<(string, string)>>, i: nat, key: string, value: string)
    requires i < |parsed| && parsed[i] == Some((key, value))
    requires forall j :: i < j < |parsed| ==> KeyOf(parsed[j]) != Some(key)
    ensures key in Settings(parsed) && Settings(parsed)[key] == value
  {
    if i < |parsed| - 1 {
      var prefix := parsed[..|parsed| - 1];
      assert prefix[i] == parsed[i];
      forall j | i < j < |prefix| ensures KeyOf(prefix[j]) != Some(key) {
        assert prefix[j] == parsed[j];
      }
      LastContributionWins(prefix, i, key, value);
      assert KeyOf(parsed[|parsed| - 1]) != Some(key);
    }
  }

  /** The value stored for a key is the one on the LAST line assigning that key. */
  lemma LastAssignmentWins(lines: seq<string>, i: nat, key: string, value: string)
    requires i < |lines| && ParseLine(lines[i]) == Some((key, value))
    requires forall j :: i < j < |lines| ==> KeyOf(ParseLine(lines[j])) != Some(key)
    ensures key in ParseConfig(lines) && ParseConfig(lines)[key] == value
  {
    LastContributionWins(ParsedLines(lines), i, key, value);
  }
}
