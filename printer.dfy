/** `print`: the loaded environment as statements for the caller's shell to evaluate. */
module Printer {
  import opened Wrappers
  import opened Text
  import opened Errors
  import opened Nesting
  import opened Shells
  import opened Environment
  import opened Host

  /** What starts a statement in each dialect. */
  function Keyword(shell: Shell): string
  {
    match shell
    case Fish(_) => "set -gx "
    case BashLike(_) => "export "
  }

  /** What separates the name from the quoted value in each dialect. */
  function Separator(shell: Shell): char
  {
    match shell
    case Fish(_) => ' '
    case BashLike(_) => '='
  }

  /**
   * One statement: `set -gx K "V"; ` for fish, `export K="V"; ` otherwise. Neither the
   * name nor the value is escaped.
   */
  function Statement(shell: Shell, key: string, value: string): (s: string)
    ensures shell.Fish? ==> s == "set -gx " + key + " \"" + value + "\"; "
    ensures shell.BashLike? ==> s == "export " + key + "=\"" + value + "\"; "
  {
    Keyword(shell) + key + [Separator(shell)] + "\"" + value + "\"; "
  }

  /** Reads back the value of `"V"; `: the text between the opening quote and the closing `"; `. */
  function ParseQuoted(tail: string): Option<string>
  {
    if |tail| < 4 || tail[0] != '"' || tail[|tail| - 3..] != "\"; " then None
    else Some(tail[1..|tail| - 3])
  }

  lemma QuotedRoundTrip(value: string)
    ensures ParseQuoted("\"" + value + "\"; ") == Some(value)
  {
    var tail := "\"" + value + "\"; ";
    assert tail[|tail| - 3..] == "\"; ";
    assert tail[1..|tail| - 3] == value;
  }

  /**
   * Reads a statement back: the keyword, the name up to the first separator, then the quoted
   * value.
   */
  function ParseStatement(shell: Shell, text: string): Option<(string, string)>
  {
    var keyword := Keyword(shell);
    if |text| < |keyword| || text[..|keyword|] != keyword then None
    else
      var rest := text[|keyword|..];
      var i := IndexOf(rest, Separator(shell));
      if i == |rest| then None
      else
        match ParseQuoted(rest[i + 1..])
        case None => None
        case Some(value) => Some((rest[..i], value))
  }

  /**
   * A statement names its variable and value so that they can be read back, whatever the
   * value holds (quotes included), as long as the name has no separator of the dialect.
   */
  lemma StatementRoundTrip(shell: Shell, key: string, value: string)
    requires Separator(shell) !in key
    ensures ParseStatement(shell, Statement(shell, key, value)) == Some((key, value))
  {
    var keyword := Keyword(shell);
    var tail := "\"" + value + "\"; ";
    var text := Statement(shell, key, value);
    assert text == keyword + (key + [Separator(shell)] + tail);
    var rest := text[|keyword|..];
    assert rest == key + [Separator(shell)] + tail;
    IndexOfFirst(key, Separator(shell), tail);
    assert rest[..|key|] == key;
    assert rest[|key| + 1..] == tail;
    QuotedRoundTrip(value);
  }

  /** The statements for the keys in `order`, one per key, in that order. */
  function Statements(shell: Shell, environment: VariableMap, order: seq<string>): (commands: seq<string>)
    requires forall k :: k in order ==> k in environment
    ensures |commands| == |order|
    ensures forall i :: 0 <= i < |order| ==> commands[i] == Statement(shell, order[i], environment[order[i]])
  {
    seq(|order|, i requires 0 <= i < |order| => Statement(shell, order[i], environment[order[i]]))
  }

  lemma StatementsSnoc(shell: Shell, environment: VariableMap, order: seq<string>, key: string)
    requires forall k :: k in order ==> k in environment
    requires key in environment
    ensures Statements(shell, environment, order + [key]) ==
      Statements(shell, environment, order) + [Statement(shell, key, environment[key])]
  {
  }

  /** `order` lists every key of the map exactly once. */
  ghost predicate IsEnumeration(order: seq<string>, environment: VariableMap)
  {
    && (forall i, j :: 0 <= i < j < |order| ==> order[i] != order[j])
    && (forall k :: k in order <==> k in environment)
  }

  /**
   * The loop of `print`: a statement per entry of the map, in the map's iteration order
   * (which the source leaves unspecified, and which `order` records), joined by one space.
   */
  method ExportStatements(shell: Shell, environment: VariableMap) returns (text: string, ghost order: seq<string>)
    ensures IsEnumeration(order, environment) && |order| == |environment|
    ensures text == JoinWith(Statements(shell, environment, order), " ")
    ensures environment == map[] ==> text == ""
    ensures forall k :: k in environment ==> Contains(text, Statement(shell, k, environment[k]))
  {
    var commands: seq<string> := [];
    var remaining := environment.Keys;
    order := [];
    while remaining != {}
      invariant remaining <= environment.Keys
      invariant forall i, j :: 0 <= i < j < |order| ==> order[i] != order[j]
      invariant forall k :: k in order <==> k in environment && k !in remaining
      invariant |order| + |remaining| == |environment|
      invariant commands == Statements(shell, environment, order)
      decreases remaining
    {
      var key :| key in remaining;
      StatementsSnoc(shell, environment, order, key);
      commands := commands + [Statement(shell, key, environment[key])];
      order := order + [key];
      remaining := remaining - {key};
    }
    text := JoinWith(commands, " ");
    EveryEntryPrinted(shell, environment, order);
  }

  /**
   * `print`: the environment of `get_environment`, or its error, turned into the text
   * written to standard output.
   */
  method Print(d: Dingus, host: Host, decode: YamlDecoder)
      returns (r: Result<string, Error>, ghost environment: VariableMap, ghost order: seq<string>)
    ensures var file := FileToParse(d.givenConfigFile, host);
      && (file.Err? ==> r == Err(file.error))
      && (file.Ok? && ParseDingusFile(file.value, host, decode).Err? ==>
            r == Err(ParseDingusFile(file.value, host, decode).error))
    ensures r.Ok? <==>
      FileToParse(d.givenConfigFile, host).Ok? && ParseDingusFile(FileToParse(d.givenConfigFile, host).value, host, decode).Ok?
    ensures r.Ok? ==>
      && IsLoadedEnvironment(environment, d.givenConfigFile, host, decode)
      && IsEnumeration(order, environment)
      && r.value == JoinWith(Statements(d.shell, environment, order), " ")
  {
    var loaded := GetEnvironment(d.givenConfigFile, host, decode);
    if loaded.Err? {
      return Err(loaded.error), map[], [];
    }
    environment := loaded.value;
    var text;
    text, order := ExportStatements(d.shell, loaded.value);
    r := Ok(text);
  }

  /** Every statement stands whole in the joined text, so no entry of the environment is lost. */
  lemma {:induction false} EveryStatementPrinted(commands: seq<string>, i: nat)
    requires i < |commands|
    ensures Contains(JoinWith(commands, " "), commands[i])
  {
    var joined := JoinWith(commands, " ");
    if |commands| == 1 {
      assert OccursAt(joined, commands[i], 0);
    } else if i == 0 {
      assert joined == commands[0] + " " + JoinWith(commands[1..], " ");
      assert OccursAt(joined, commands[0], 0);
    } else {
      var rest := JoinWith(commands[1..], " ");
      assert joined == commands[0] + " " + rest;
      EveryStatementPrinted(commands[1..], i - 1);
      var k :| OccursAt(rest, commands[i], k);
      var offset := |commands[0]| + 1;
      assert joined[offset..] == rest;
      assert joined[offset + k..offset + k + |commands[i]|] == rest[k..k + |commands[i]|];
      assert OccursAt(joined, commands[i], offset + k);
    }
  }

  /** Whatever the iteration order, the statement of every entry stands whole in the text. */
  lemma EveryEntryPrinted(shell: Shell, environment: VariableMap, order: seq<string>)
    requires IsEnumeration(order, environment)
    ensures environment == map[] ==> JoinWith(Statements(shell, environment, order), " ") == ""
    ensures forall k :: k in environment ==>
      Contains(JoinWith(Statements(shell, environment, order), " "), Statement(shell, k, environment[k]))
  {
    var commands := Statements(shell, environment, order);
    forall k | k in environment
      ensures Contains(JoinWith(commands, " "), Statement(shell, k, environment[k]))
    {
      var i :| 0 <= i < |order| && order[i] == k;
      EveryStatementPrinted(commands, i);
    }
  }
}
