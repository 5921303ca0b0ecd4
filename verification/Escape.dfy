/**
 dynamic/blocks.py: `_escape_braces`, and the `str.format_map` grammar that message templates
 are rendered with: doubled braces stand for one, `{name}` for a value, a stray brace is an error.
 Fields with conversions, format specs, attributes or indexes count as errors here.
 */
module Escape {
  import opened Sequences

  datatype FormatError = StrayBrace | BadField(field: string) | MissingKey(name: string)

  // ----- escaping --------------------------------------------------------------------------

  /** `text.replace(c, with)` for a single character. */
  function Replace(text: string, c: char, with: string): (r: string) {
    if text == "" then "" else (if text[0] == c then with else [text[0]]) + Replace(text[1..], c, with)
  }

  /** `_escape_braces` */
  function EscapeBraces(text: string): (r: string) {
    Replace(Replace(text, '{', "{{"), '}', "}}")
  }

  // ----- rendering -------------------------------------------------------------------------------

  predicate IsBrace(c: char) {
    c == '{' || c == '}'
  }

  predicate BraceFree(s: string) {
    forall i :: 0 <= i < |s| ==> !IsBrace(s[i])
  }

  /** A plain keyword field: not empty, no conversion, spec, attribute or index, and not a position. */
  predicate IsName(field: string) {
    && field != ""
    && (forall i :: 0 <= i < |field| ==> field[i] !in {'!', ':', '.', '['})
    && exists i :: 0 <= i < |field| && !('0' <= field[i] <= '9')
  }

  /** How far the text goes before the next brace. */
  function PlainLength(s: string): (n: nat)
    ensures n <= |s| && BraceFree(s[..n])
    ensures n < |s| ==> IsBrace(s[n])
  {
    if s == "" || IsBrace(s[0]) then 0
    else
      var n := PlainLength(s[1..]);
      assert s[..n + 1] == [s[0]] + s[1..][..n];
      n + 1
  }

  function Prepend(head: string, r: Result<string, FormatError>): (r': Result<string, FormatError>) {
    if r.Ok? then Ok(head + r.value) else r
  }

  lemma PrependTwice(a: string, b: string, r: Result<string, FormatError>)
    ensures Prepend(a, Prepend(b, r)) == Prepend(a + b, r)
  {
    if r.Ok? {
      assert a + (b + r.value) == (a + b) + r.value;
    }
  }

  /** `s.format_map(values)` */
  function Render(s: string, values: map<string, string>): (r: Result<string, FormatError>)
    decreases |s|
  {
    if s == "" then Ok("")
    else if !IsBrace(s[0]) then Prepend([s[0]], Render(s[1..], values))
    else if |s| >= 2 && s[1] == s[0] then Prepend([s[0]], Render(s[2..], values))
    else if s[0] == '}' then Err(StrayBrace)
    else
      var n := PlainLength(s[1..]);
      var field := s[1..][..n];
      if n + 1 == |s| || s[n + 1] == '{' then Err(if n + 1 == |s| then StrayBrace else BadField(field))
      else if !IsName(field) then Err(BadField(field))
      else if field !in values then Err(MissingKey(field))
      else Prepend(values[field], Render(s[n + 2..], values))
  }

  // One token of the grammar at the front of a text.

  lemma PlainToken(c: char, rest: string, values: map<string, string>)
    requires !IsBrace(c)
    ensures Render([c] + rest, values) == Prepend([c], Render(rest, values))
  {
    assert ([c] + rest)[1..] == rest;
  }

  lemma DoubledToken(c: char, rest: string, values: map<string, string>)
    requires IsBrace(c)
    ensures Render([c, c] + rest, values) == Prepend([c], Render(rest, values))
  {
    assert ([c, c] + rest)[2..] == rest;
  }

  function FieldResult(name: string, values: map<string, string>, rest: Result<string, FormatError>): (r: Result<string, FormatError>) {
    if !IsName(name) then Err(BadField(name))
    else if name !in values then Err(MissingKey(name))
    else Prepend(values[name], rest)
  }

  lemma FieldToken(name: string, rest: string, values: map<string, string>)
    requires BraceFree(name)
    ensures Render("{" + name + "}" + rest, values) == FieldResult(name, values, Render(rest, values))
  {
    var s := "{" + name + "}" + rest;
    assert s[1..] == name + ("}" + rest);
    PlainPrefix(name, "}" + rest);
    assert (name + ("}" + rest))[..|name|] == name;
    assert s[|name| + 2..] == rest;
    assert s[1] == if name == "" then '}' else name[0];
  }

  /** A field that meets an opening brace before it is closed. */
  lemma OpenField(name: string, rest: string, values: map<string, string>)
    requires BraceFree(name) && name != ""
    ensures Render("{" + name + "{" + rest, values).Err?
  {
    var s := "{" + name + "{" + rest;
    assert s[1..] == name + ("{" + rest);
    PlainPrefix(name, "{" + rest);
    assert s[1] == name[0];
  }

  // ----- the escape is undone -----------------------------------------------------------------------

  lemma {:induction false} ReplaceAppend(a: string, b: string, c: char, with: string)
    ensures Replace(a + b, c, with) == Replace(a, c, with) + Replace(b, c, with)
  {
    if a == "" {
      assert a + b == b;
    } else {
      ReplaceAppend(a[1..], b, c, with);
      assert (a + b)[1..] == a[1..] + b;
      var first := if a[0] == c then with else [a[0]];
      assert first + (Replace(a[1..], c, with) + Replace(b, c, with)) == (first + Replace(a[1..], c, with)) + Replace(b, c, with);
    }
  }

  /** Both replacements together treat the text character by character. */
  lemma EscapeFirst(text: string)
    requires text != ""
    ensures EscapeBraces(text) == (if IsBrace(text[0]) then [text[0], text[0]] else [text[0]]) + EscapeBraces(text[1..])
  {
    var once := if text[0] == '{' then "{{" else [text[0]];
    ReplaceAppend(once, Replace(text[1..], '{', "{{"), '}', "}}");
    assert Replace([text[0]], '}', "}}") == if text[0] == '}' then "}}" else [text[0]] by {
      assert [text[0]][1..] == "";
    }
    assert "{{"[1..] == "{" && "{"[1..] == "";
    assert Replace("{{", '}', "}}") == "{{";
  }

  /** Whatever follows an escaped text, rendering gives the text itself and then renders what follows. */
  lemma {:induction false} EscapedThenRest(text: string, rest: string, values: map<string, string>)
    ensures Render(EscapeBraces(text) + rest, values) == Prepend(text, Render(rest, values))
  {
    if text == "" {
      assert EscapeBraces(text) + rest == rest;
      NothingPrepended(Render(rest, values));
    } else {
      EscapedThenRest(text[1..], rest, values);
      EscapedFirst(text, rest, values);
      assert text == [text[0]] + text[1..];
      PrependTwice([text[0]], text[1..], Render(rest, values));
    }
  }

  /** The first character of a text, escaped, is one token. */
  lemma EscapedFirst(text: string, rest: string, values: map<string, string>)
    requires text != ""
    ensures Render(EscapeBraces(text) + rest, values) == Prepend([text[0]], Render(EscapeBraces(text[1..]) + rest, values))
  {
    var c, tail := text[0], EscapeBraces(text[1..]);
    EscapeFirst(text);
    if IsBrace(c) {
      Regroup([c, c], tail, rest);
      DoubledToken(c, tail + rest, values);
    } else {
      Regroup([c], tail, rest);
      PlainToken(c, tail + rest, values);
    }
  }

  lemma Regroup(a: string, b: string, c: string)
    ensures (a + b) + c == a + (b + c)
  {
  }

  lemma NothingPrepended(r: Result<string, FormatError>)
    ensures Prepend("", r) == r
  {
    if r.Ok? {
      assert "" + r.value == r.value;
    }
  }

  /** The escaped text renders to the text, for every text and every mapping. */
  lemma EscapedRendersToItself(text: string, values: map<string, string>)
    ensures Render(EscapeBraces(text), values) == Ok(text)
  {
    EscapedThenRest(text, "", values);
    assert EscapeBraces(text) + "" == EscapeBraces(text);
    assert text + "" == text;
  }

  /** An escaped prompt followed by a field: the prompt as it is, then the value. */
  lemma EscapedThenField(text: string, value: string)
    ensures Render(EscapeBraces(text) + "\n\n{ref0}", map["ref0" := value]) == Ok(text + "\n\n" + value)
  {
    EscapedThenRest(text, "\n\n{ref0}", map["ref0" := value]);
    FieldRenders(value);
    assert text + ("\n\n" + value) == text + "\n\n" + value;
  }

  lemma FieldAlone(value: string)
    ensures Render("{ref0}", map["ref0" := value]) == Ok(value)
  {
    var values := map["ref0" := value];
    assert "ref0"[0] == 'r';
    assert "{" + "ref0" + "}" + "" == "{ref0}";
    FieldToken("ref0", "", values);
    assert Render("", values) == Ok("");
    assert value + "" == value;
  }

  lemma TwoBreaks(rest: string, values: map<string, string>)
    ensures Render(['\n', '\n'] + rest, values) == Prepend(['\n', '\n'], Render(rest, values))
  {
    PlainToken('\n', rest, values);
    PlainToken('\n', ['\n'] + rest, values);
    PrependTwice(['\n'], ['\n'], Render(rest, values));
    Regroup(['\n'], ['\n'], rest);
    assert ['\n'] + ['\n'] == ['\n', '\n'];
  }

  lemma FieldRenders(value: string)
    ensures Render("\n\n{ref0}", map["ref0" := value]) == Ok("\n\n" + value)
  {
    FieldAlone(value);
    TwoBreaks("{ref0}", map["ref0" := value]);
    assert "\n\n" == ['\n', '\n'];
    assert "\n\n{ref0}" == ['\n', '\n'] + "{ref0}";
  }

  lemma {:induction false} PlainPrefix(a: string, b: string)
    requires BraceFree(a) && b != "" && IsBrace(b[0])
    ensures PlainLength(a + b) == |a|
  {
    if a == "" {
      assert a + b == b;
    } else {
      assert (a + b)[1..] == a[1..] + b;
      PlainPrefix(a[1..], b);
    }
  }

  // ----- what happens without the escape ---------------------------------------------------------------

  ghost predicate AllEmpty(values: map<string, string>) {
    forall k :: k in values ==> values[k] == ""
  }

  /** Rendering only ever removes text when the values are empty, and it does whenever there is a brace. */
  lemma {:induction false} BracesShrink(s: string, values: map<string, string>)
    requires AllEmpty(values) && Render(s, values).Ok?
    ensures |Render(s, values).value| <= |s|
    ensures !BraceFree(s) ==> |Render(s, values).value| < |s|
    decreases |s|
  {
    if s == "" {
    } else if !IsBrace(s[0]) {
      BracesShrink(s[1..], values);
      if BraceFree(s[1..]) {
        assert forall i :: 0 < i < |s| ==> s[i] == s[1..][i - 1];
      }
    } else if |s| >= 2 && s[1] == s[0] {
      BracesShrink(s[2..], values);
    } else {
      var n := PlainLength(s[1..]);
      BracesShrink(s[n + 2..], values);
    }
  }

  lemma {:induction false} BraceFreeRenders(s: string, values: map<string, string>)
    requires BraceFree(s)
    ensures Render(s, values) == Ok(s)
  {
    if s != "" {
      BraceFreeRenders(s[1..], values);
      assert s == [s[0]] + s[1..];
    }
  }

  /** A text survives unescaped rendering exactly when it holds no brace. */
  lemma UnescapedSurvives(s: string)
    ensures Render(s, map[]) == Ok(s) <==> BraceFree(s)
  {
    if BraceFree(s) {
      BraceFreeRenders(s, map[]);
    } else if Render(s, map[]).Ok? {
      BracesShrink(s, map[]);
    }
  }

  /** What stands before a line break and a field, with a result of its own, is rendered on its own. */
  ghost predicate Splits(s: string, t: string, values: map<string, string>) {
    && (Render(s + t, values).Ok? ==> Render(s, values).Ok? && Render(t, values).Ok?)
    && (Render(s, values).Ok? ==> Render(s + t, values) == Prepend(Render(s, values).value, Render(t, values)))
  }

  const FIELD := "\n\n{ref0}"

  lemma {:induction false} RenderBefore(s: string, values: map<string, string>)
    ensures Splits(s, FIELD, values)
    decreases |s|
  {
    var t := FIELD;
    if s == "" {
      assert s + t == t;
      NothingPrepended(Render(t, values));
    } else if !IsBrace(s[0]) {
      assert s == [s[0]] + s[1..];
      RenderBefore(s[1..], values);
      SplitsAfterPlain(s[0], s[1..], t, values);
    } else if |s| >= 2 && s[1] == s[0] {
      assert s == [s[0], s[0]] + s[2..];
      RenderBefore(s[2..], values);
      SplitsAfterDouble(s[0], s[2..], t, values);
    } else if s[0] == '}' {
      assert (s + t)[1] == if |s| >= 2 then s[1] else '\n';
    } else {
      var n := PlainLength(s[1..]);
      if n + 1 < |s| && s[n + 1] == '}' {
        RenderBefore(s[n + 2..], values);
      }
      SplitsAtField(s, values);
    }
  }

  lemma SplitsAtField(s: string, values: map<string, string>)
    requires s != "" && s[0] == '{' && (|s| >= 2 ==> s[1] != '{')
    requires
      var n := PlainLength(s[1..]);
      n + 1 < |s| && s[n + 1] == '}' ==> Splits(s[n + 2..], FIELD, values)
    ensures Splits(s, FIELD, values)
  {
    var n := PlainLength(s[1..]);
    var name := s[1..][..n];
    if n + 1 == |s| {
      UnclosedFails(name, values);
      assert s == "{" + name;
    } else {
      var rest := s[n + 2..];
      if s[n + 1] == '{' {
        assert s == "{" + name + "{" + rest;
        assert s + FIELD == "{" + name + "{" + (rest + FIELD);
        OpenField(name, rest, values);
        OpenField(name, rest + FIELD, values);
      } else {
        assert s == "{" + name + "}" + rest;
        SplitsAfterField(name, rest, FIELD, values);
      }
    }
  }

  lemma SplitsAfterPlain(c: char, rest: string, t: string, values: map<string, string>)
    requires !IsBrace(c) && Splits(rest, t, values)
    ensures Splits([c] + rest, t, values)
  {
    PlainToken(c, rest, values);
    PlainToken(c, rest + t, values);
    assert ([c] + rest) + t == [c] + (rest + t);
    if Render(rest, values).Ok? {
      PrependTwice([c], Render(rest, values).value, Render(t, values));
    }
  }

  lemma SplitsAfterDouble(c: char, rest: string, t: string, values: map<string, string>)
    requires IsBrace(c) && Splits(rest, t, values)
    ensures Splits([c, c] + rest, t, values)
  {
    DoubledToken(c, rest, values);
    DoubledToken(c, rest + t, values);
    assert ([c, c] + rest) + t == [c, c] + (rest + t);
    if Render(rest, values).Ok? {
      PrependTwice([c], Render(rest, values).value, Render(t, values));
    }
  }

  lemma SplitsAfterField(name: string, rest: string, t: string, values: map<string, string>)
    requires BraceFree(name) && Splits(rest, t, values)
    ensures Splits("{" + name + "}" + rest, t, values)
  {
    FieldToken(name, rest, values);
    FieldToken(name, rest + t, values);
    assert ("{" + name + "}" + rest) + t == "{" + name + "}" + (rest + t);
    if IsName(name) && name in values && Render(rest, values).Ok? {
      PrependTwice(values[name], Render(rest, values).value, Render(t, values));
    }
  }

  /** A field left open runs into the brace of the field that follows. */
  lemma UnclosedFails(name: string, values: map<string, string>)
    requires BraceFree(name)
    ensures Render("{" + name, values).Err? && Render("{" + name + FIELD, values).Err?
  {
    assert FIELD == "\n\n" + "{" + "ref0}";
    assert "{" + name + FIELD == "{" + (name + "\n\n") + "{" + "ref0}";
    OpenField(name + "\n\n", "ref0}", values);
    assert ("{" + name)[1..] == name;
    PlainAll(name);
  }

  lemma {:induction false} PlainAll(s: string)
    requires BraceFree(s)
    ensures PlainLength(s) == |s|
  {
  }

  // ----- the messages of a round ----------------------------------------------------------------------

  ghost predicate PromptSurvives(prompt: string, value: string) {
    Render(prompt + FIELD, map["ref0" := value]) == Ok(prompt + ("\n\n" + value))
  }

  lemma BraceFreeSurvives(prompt: string, value: string)
    requires BraceFree(prompt)
    ensures PromptSurvives(prompt, value)
  {
    BraceFreeRenders(prompt, map["ref0" := value]);
    RenderBefore(prompt, map["ref0" := value]);
    FieldRenders(value);
  }

  const FIRST_PROMPT := "Emit the first subgraph " + "that starts to advance " + "the goal."
  const NEXT_PROMPT :=
    "Here is the observation " + "from the last round. " + "Based on it, emit " + "the next subgraph, " + "or STOP."

  /** The user message of `planner_messages`, as `build_round` asks for it: without a round observation. */
  function PlannerUser(hasSubgraph: bool): (user: string) {
    if hasSubgraph then NEXT_PROMPT else FIRST_PROMPT
  }

  lemma JoinBraceFree(a: string, b: string)
    requires BraceFree(a) && BraceFree(b)
    ensures BraceFree(a + b)
  {
  }

  lemma PlannerUserIsBraceFree(hasSubgraph: bool)
    ensures BraceFree(PlannerUser(hasSubgraph))
  {
    if hasSubgraph {
      var a := "Here is the observation " + "from the last round. ";
      var b := a + "Based on it, emit ";
      JoinBraceFree("Here is the observation ", "from the last round. ");
      JoinBraceFree(a, "Based on it, emit ");
      JoinBraceFree(b, "the next subgraph, ");
      JoinBraceFree(b + "the next subgraph, ", "or STOP.");
    } else {
      JoinBraceFree("Emit the first subgraph ", "that starts to advance ");
      JoinBraceFree("Emit the first subgraph " + "that starts to advance ", "the goal.");
    }
  }

  /** What `fused_round_graph` puts into the user message: a template over the leaves' observation, or literal text. */
  function UserTemplate(hasLeaves: bool, user: string): (template: string) {
    if hasLeaves then user + FIELD else EscapeBraces(user)
  }

  /** Every round's user message is the planner's prompt as it is, followed by the observation if there are leaves. */
  lemma RoundPromptArrives(hasSubgraph: bool, hasLeaves: bool, observation: string)
    ensures
      var user := PlannerUser(hasSubgraph);
      Render(UserTemplate(hasLeaves, user), map["ref0" := observation])
        == Ok(if hasLeaves then user + ("\n\n" + observation) else user)
  {
    var user := PlannerUser(hasSubgraph);
    PlannerUserIsBraceFree(hasSubgraph);
    BraceFreeSurvives(user, observation);
    EscapedRendersToItself(user, map["ref0" := observation]);
  }

  /**
   The template does not escape the prompt, so this rests on the prompts: as a parameter of
   `fused_round_graph` a prompt arrives unchanged under every observation exactly when it holds no brace.
   */
  lemma UnescapedPromptSurvives(prompt: string)
    ensures (forall value :: PromptSurvives(prompt, value)) <==> BraceFree(prompt)
  {
    if BraceFree(prompt) {
      forall value ensures PromptSurvives(prompt, value) {
        BraceFreeSurvives(prompt, value);
      }
    } else {
      BraceIsLost(prompt);
    }
  }

  lemma BraceIsLost(prompt: string)
    requires !BraceFree(prompt)
    ensures !PromptSurvives(prompt, "")
  {
    var values := map["ref0" := ""];
    RenderBefore(prompt, values);
    FieldRenders("");
    var r := Render(prompt, values);
    if r.Ok? {
      BracesShrink(prompt, values);
      var end := "\n\n" + "";
      assert Render(prompt + FIELD, values) == Ok(r.value + end);
      assert |r.value + end| < |prompt + end|;
    }
  }
}
