/**
  The picker adapter (rbwm/menu.py): the fixed command template of each known picker
  program, the substitution of the prompt into it, the text fed to the picker on its
  standard input, and the reading of the picker's answer.  Running the command is
  not modelled: its exit code and standard output come back as a `Reply`.
*/
module Menu {
  import opened Wrappers
  import opened Text

  /** One row of the table of known pickers. */
  datatype MenuConfig = MenuConfig(cmd: string, description: string)

  const MENU_CONFIGS: map<string, MenuConfig> := map[
    "dmenu" := MenuConfig("dmenu -l 10 -i -p '{prompt}'", "Classic dmenu (X11)"),
    "bemenu" := MenuConfig("bemenu -l 10 -i -p '{prompt}'", "bemenu (Wayland/X11)"),
    "wmenu" := MenuConfig("wmenu -i -p '{prompt}'", "wmenu (Wayland)"),
    "rofi" := MenuConfig("rofi -dmenu -i -p '{prompt}'", "rofi (X11/Wayland)"),
    "fuzzel" := MenuConfig("fuzzel --dmenu -p '{prompt}'", "fuzzel (Wayland)"),
    "tofi" := MenuConfig("tofi --prompt '{prompt}'", "tofi (Wayland)")
  ]

  /** The placeholder that `str.format(prompt=...)` fills in. */
  const PLACEHOLDER: string := "{prompt}"

  /** The shell command to run and the text written to its standard input. */
  datatype Invocation = Invocation(command: string, input: string)

  /** What the picker process gave back. */
  datatype Reply = Reply(exitCode: int, stdout: string)

  /** A known program's template; any other name is its own template (a custom command). */
  function Template(program: string): string {
    if program in MENU_CONFIGS then MENU_CONFIGS[program].cmd else program
  }

  /**
    `template.format(prompt=prompt)` for a template whose only braces are placeholders:
    every `{prompt}` is replaced, and the inserted prompt is not scanned again.
  */
  function Substitute(template: string, prompt: string): string
    decreases |template|
  {
    if |template| >= |PLACEHOLDER| && template[..|PLACEHOLDER|] == PLACEHOLDER then
      prompt + Substitute(template[|PLACEHOLDER|..], prompt)
    else if template == [] then []
    else [template[0]] + Substitute(template[1..], prompt)
  }

  /** `select_from_menu_raw` up to the process call: the command line and its input. */
  function BuildInvocation(program: string, items: seq<string>, prompt: string): Invocation {
    Invocation(Substitute(Template(program), prompt), Join(items, "\n"))
  }

  /** `select_from_menu_raw` after the process call: stripped output on success, else none. */
  function Selection(reply: Reply): Option<string> {
    if reply.exitCode == 0 then Some(Strip(reply.stdout)) else None
  }

  /** Text without an opening brace passes through substitution unchanged. */
  lemma {:induction false} SubstitutePlainPrefix(a: string, b: string, prompt: string)
    requires '{' !in a
    ensures Substitute(a + b, prompt) == a + Substitute(b, prompt)
  {
    if a != [] {
      var t := a + b;
      assert t[0] == a[0];
      assert !(|t| >= |PLACEHOLDER| && t[..|PLACEHOLDER|] == PLACEHOLDER) by {
        if |t| >= |PLACEHOLDER| {
          assert t[..|PLACEHOLDER|][0] == a[0];
          assert PLACEHOLDER[0] == '{';
        }
      }
      assert t[1..] == a[1..] + b;
      assert Substitute(t, prompt) == [a[0]] + Substitute(t[1..], prompt);
      assert '{' !in a[1..];
      SubstitutePlainPrefix(a[1..], b, prompt);
      assert [a[0]] + a[1..] == a;
    } else {
      assert a + b == b;
    }
  }

  /** A template made of plain text, one placeholder and plain text becomes text, prompt, text. */
  lemma SubstituteOnce(before: string, after: string, prompt: string)
    requires '{' !in before && '{' !in after
    ensures Substitute(before + PLACEHOLDER + after, prompt) == before + prompt + after
  {
    assert before + PLACEHOLDER + after == before + (PLACEHOLDER + after);
    SubstitutePlainPrefix(before, PLACEHOLDER + after, prompt);
    var t := PLACEHOLDER + after;
    assert t[..|PLACEHOLDER|] == PLACEHOLDER && t[|PLACEHOLDER|..] == after;
    SubstitutePlainPrefix(after, [], prompt);
    assert after + [] == after;
  }

  /** The known templates are plain text, one placeholder, and a closing quote. */
  predicate QuotedPromptTemplate(program: string, before: string) {
    '{' !in before && Template(program) == before + PLACEHOLDER + "'"
  }

  lemma DmenuTemplate()
    ensures QuotedPromptTemplate("dmenu", "dmenu -l 10 -i -p '")
  {
    assert Template("dmenu") == "dmenu -l 10 -i -p '{prompt}'";
    assert "dmenu -l 10 -i -p '{prompt}'" == "dmenu -l 10 -i -p '" + PLACEHOLDER + "'";
  }

  lemma BemenuTemplate()
    ensures QuotedPromptTemplate("bemenu", "bemenu -l 10 -i -p '")
  {
    assert Template("bemenu") == "bemenu -l 10 -i -p '{prompt}'";
    assert "bemenu -l 10 -i -p '{prompt}'" == "bemenu -l 10 -i -p '" + PLACEHOLDER + "'";
  }

  lemma WmenuTemplate()
    ensures QuotedPromptTemplate("wmenu", "wmenu -i -p '")
  {
    assert Template("wmenu") == "wmenu -i -p '{prompt}'";
    assert "wmenu -i -p '{prompt}'" == "wmenu -i -p '" + PLACEHOLDER + "'";
  }

  lemma RofiTemplate()
    ensures QuotedPromptTemplate("rofi", "rofi -dmenu -i -p '")
  {
    assert Template("rofi") == "rofi -dmenu -i -p '{prompt}'";
    assert "rofi -dmenu -i -p '{prompt}'" == "rofi -dmenu -i -p '" + PLACEHOLDER + "'";
  }

  lemma FuzzelTemplate()
    ensures QuotedPromptTemplate("fuzzel", "fuzzel --dmenu -p '")
  {
    assert Template("fuzzel") == "fuzzel --dmenu -p '{prompt}'";
    assert "fuzzel --dmenu -p '{prompt}'" == "fuzzel --dmenu -p '" + PLACEHOLDER + "'";
  }

  lemma TofiTemplate()
    ensures QuotedPromptTemplate("tofi", "tofi --prompt '")
  {
    assert Template("tofi") == "tofi --prompt '{prompt}'";
    assert "tofi --prompt '{prompt}'" == "tofi --prompt '" + PLACEHOLDER + "'";
  }

  /** Each known picker gets its fixed command line with the prompt in single quotes. */
  lemma KnownPickerCommand(program: string, prompt: string)
    requires program in MENU_CONFIGS
    ensures var cmd := BuildInvocation(program, [], prompt).command;
      (program == "dmenu" ==> cmd == "dmenu -l 10 -i -p '" + prompt + "'") &&
      (program == "bemenu" ==> cmd == "bemenu -l 10 -i -p '" + prompt + "'") &&
      (program == "wmenu" ==> cmd == "wmenu -i -p '" + prompt + "'") &&
      (program == "rofi" ==> cmd == "rofi -dmenu -i -p '" + prompt + "'") &&
      (program == "fuzzel" ==> cmd == "fuzzel --dmenu -p '" + prompt + "'") &&
      (program == "tofi" ==> cmd == "tofi --prompt '" + prompt + "'")
  {
    if program == "dmenu" {
      DmenuTemplate();
      SubstituteOnce("dmenu -l 10 -i -p '", "'", prompt);
    } else if program == "bemenu" {
      BemenuTemplate();
      SubstituteOnce("bemenu -l 10 -i -p '", "'", prompt);
    } else if program == "wmenu" {
      WmenuTemplate();
      SubstituteOnce("wmenu -i -p '", "'", prompt);
    } else if program == "rofi" {
      RofiTemplate();
      SubstituteOnce("rofi -dmenu -i -p '", "'", prompt);
    } else if program == "fuzzel" {
      FuzzelTemplate();
      SubstituteOnce("fuzzel --dmenu -p '", "'", prompt);
    } else if program == "tofi" {
      TofiTemplate();
      SubstituteOnce("tofi --prompt '", "'", prompt);
    }
  }

  /** A program without a table row whose text has no braces is run verbatim. */
  lemma CustomCommandVerbatim(program: string, items: seq<string>, prompt: string)
    requires program !in MENU_CONFIGS && '{' !in program
    ensures BuildInvocation(program, items, prompt).command == program
  {
    SubstitutePlainPrefix(program, [], prompt);
    assert program + [] == program;
  }

  /**
    The picker receives the items one per line: splitting its input at newlines gives
    the items back; with no items the input is the empty string.
  */
  lemma PickerInputIsItems(program: string, items: seq<string>, prompt: string)
    requires forall k :: 0 <= k < |items| ==> '\n' !in items[k]
    ensures var input := BuildInvocation(program, items, prompt).input;
      (items == [] ==> input == "") &&
      (items != [] ==> SplitOn(input, '\n') == items)
  {
    if items != [] {
      SplitJoin(items, '\n');
    }
  }

  /**
    A selection exists exactly when the picker exited with status zero; it is the
    picker's output without surrounding whitespace, and may be empty: a piece of the
    output with only whitespace before and after it, and none at either of its ends.
  */
  lemma SelectionSpec(reply: Reply)
    ensures Selection(reply).Some? <==> reply.exitCode == 0
    ensures Selection(reply).Some? ==> Trimmed(Selection(reply).value)
    ensures Selection(reply).Some? ==> exists i :: Padded(reply.stdout, i, Selection(reply).value)
    ensures Selection(reply).Some? && Trimmed(reply.stdout) ==> Selection(reply).value == reply.stdout
  {
    var i := StripSpec(reply.stdout);
    assert Padded(reply.stdout, i, Strip(reply.stdout));
  }

  /** A picker's usual reply, the choice and a newline, selects the choice. */
  lemma SelectionDropsNewline(choice: string)
    requires Trimmed(choice)
    ensures Selection(Reply(0, choice + "\n")) == Some(choice)
  {
    var out := choice + "\n";
    assert IsSpace(out[|out| - 1]) && out[..|out| - 1] == choice;
    if choice == [] {
      assert out[1..] == [];
      assert StripLeft(out) == [];
    } else {
      assert out[0] == choice[0];
      assert StripLeft(out) == out;
      assert StripRight(out) == StripRight(choice) == choice;
    }
  }
}
