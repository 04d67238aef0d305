/** The lines that parse of waf-tools/shellcmd.py accepts, as a grammar, and what each of them means. */
module ShellGrammar {
  import opened Wrappers
  import opened ShellSyntax
  import opened ShellParser
  import opened ShellPrinter

  // ----- the grammar

  /** An argument or a redirection. */
  datatype Part = Word(text: string) | From(name: string) | To(name: string) | ErrorTo(name: string) | ErrorToOutput

  /** A command with its bindings, or a cd. */
  datatype Piece = Run(bindings: seq<string>, name: string, parts: seq<Part>) | Go(dir: Option<string>)

  /** Where the line ends: in the bindings of the next command, or in a piece, perhaps behind a redirection sign. */
  datatype Stage = Fresh(bindings: seq<string>) | In(piece: Piece, sign: Option<string>)

  datatype Line = Line(done: seq<(Piece, Node)>, stage: Stage)

  ghost function PartTokens(part: Part): seq<string> {
    match part
    case Word(text) => [text]
    case From(name) => ["<", name]
    case To(name) => [">", name]
    case ErrorTo(name) => ["2>", name]
    case ErrorToOutput => ["2>&1"]
  }

  ghost function PartsTokens(parts: seq<Part>): seq<string> {
    if parts == [] then [] else PartsTokens(parts[..|parts| - 1]) + PartTokens(parts[|parts| - 1])
  }

  ghost function PieceTokens(piece: Piece): seq<string> {
    match piece
    case Run(bindings, name, parts) => bindings + [name] + PartsTokens(parts)
    case Go(None) => ["cd"]
    case Go(Some(dir)) => ["cd", dir]
  }

  ghost function DoneTokens(done: seq<(Piece, Node)>): seq<string> {
    if done == [] then []
    else
      var (piece, op) := done[|done| - 1];
      DoneTokens(done[..|done| - 1]) + PieceTokens(piece) + [OpToken(op)]
  }

  ghost function StageTokens(stage: Stage): seq<string> {
    match stage
    case Fresh(bindings) => bindings
    case In(piece, None) => PieceTokens(piece)
    case In(piece, Some(sign)) => PieceTokens(piece) + [sign]
  }

  ghost function LineTokens(line: Line): seq<string> {
    DoneTokens(line.done) + StageTokens(line.stage)
  }

  ghost function Words(parts: seq<Part>): seq<string> {
    if parts == [] then []
    else Words(parts[..|parts| - 1]) + (match parts[|parts| - 1] case Word(text) => [text] case _ => [])
  }

  ghost function Inputs(parts: seq<Part>): seq<string> {
    if parts == [] then []
    else Inputs(parts[..|parts| - 1]) + (match parts[|parts| - 1] case From(name) => [name] case _ => [])
  }

  ghost function Outputs(parts: seq<Part>): seq<string> {
    if parts == [] then []
    else Outputs(parts[..|parts| - 1]) + (match parts[|parts| - 1] case To(name) => [name] case _ => [])
  }

  ghost function Errors(parts: seq<Part>): seq<Stream> {
    if parts == [] then []
    else
      Errors(parts[..|parts| - 1])
      + (match parts[|parts| - 1] case ErrorTo(name) => [File(name)] case ErrorToOutput => [STDOUT] case _ => [])
  }

  ghost predicate LawfulBindings(bindings: seq<string>) {
    forall i :: 0 <= i < |bindings| ==> Binding(bindings[i]).Some?
  }

  /** Arguments that are no signs, and at most one redirection of each stream. */
  ghost predicate LawfulParts(parts: seq<Part>) {
    && (forall i :: 0 <= i < |parts| && parts[i].Word? ==> IsPlain(parts[i].text))
    && |Inputs(parts)| <= 1 && |Outputs(parts)| <= 1 && |Errors(parts)| <= 1
  }

  ghost predicate LawfulPiece(piece: Piece) {
    match piece
    case Run(bindings, name, parts) =>
      LawfulBindings(bindings) && Binding(name) == None && name != "cd" && LawfulParts(parts)
    case Go(dir) => dir != Some("&&")
  }

  /** Only && may follow a cd, and | a command whose output is not redirected. */
  ghost predicate LawfulStep(piece: Piece, op: Node) {
    && LawfulPiece(piece) && op.IsOp()
    && (piece.Go? ==> op == And)
    && (op == Pipe ==> piece.Run? && Outputs(piece.parts) == [])
  }

  ghost predicate LawfulStage(stage: Stage) {
    match stage
    case Fresh(bindings) => LawfulBindings(bindings)
    case In(piece, sign) => LawfulPiece(piece) && (sign.Some? ==> piece.Run? && sign.value in {"<", ">", "2>"})
  }

  ghost predicate LawfulDone(done: seq<(Piece, Node)>) {
    forall i :: 0 <= i < |done| ==> LawfulStep(done[i].0, done[i].1)
  }

  ghost predicate Lawful(line: Line) {
    LawfulDone(line.done) && LawfulStage(line.stage)
  }

  // ----- the meaning

  /** The last binding of a name counts. */
  ghost function Env(bindings: seq<string>): map<string, string>
    requires LawfulBindings(bindings)
  {
    if bindings == [] then map[]
    else
      var (name, value) := Binding(bindings[|bindings| - 1]).value;
      Env(bindings[..|bindings| - 1])[name := value]
  }

  ghost function ItemOf(piece: Piece, piped: bool): Node
    requires LawfulPiece(piece)
  {
    match piece
    case Go(dir) => Chdir(dir)
    case Run(bindings, name, parts) =>
      Command([name] + Words(parts),
              if Inputs(parts) == [] then None else Some(Inputs(parts)[0]),
              if piped then PIPE else if Outputs(parts) == [] then Unset else File(Outputs(parts)[0]),
              if Errors(parts) == [] then Unset else Errors(parts)[0],
              Env(bindings))
  }

  ghost function Nodes(done: seq<(Piece, Node)>): seq<Node>
    requires LawfulDone(done)
  {
    if done == [] then []
    else
      var piece, op := done[|done| - 1].0, done[|done| - 1].1;
      assert LawfulStep(piece, op);
      Nodes(done[..|done| - 1]) + [ItemOf(piece, op == Pipe), op]
  }

  ghost function StateOf(line: Line): ParseState
    requires Lawful(line)
  {
    var nodes := Nodes(line.done);
    match line.stage
    case Fresh(bindings) => ParseState(BEGIN, None, Env(bindings), nodes)
    case In(piece, sign) =>
      var mode := if piece.Go? then CHDIR
                  else if sign == None then COMMAND
                  else if sign.value == "<" then FROM_STDIN
                  else if sign.value == ">" then TO_STDOUT
                  else TO_STDERR;
      ParseState(mode, Some(ItemOf(piece, false)), map[], nodes)
  }

  // ----- one token more

  ghost function Plus(line: Line, stage: Stage): Option<Line> {
    Some(line.(stage := stage))
  }

  ghost function Closed(line: Line, op: Node): Option<Line>
    requires line.stage.In?
  {
    Some(Line(line.done + [(line.stage.piece, op)], Fresh([])))
  }

  ghost function WithPart(piece: Piece, part: Part): Stage
    requires piece.Run?
  {
    In(piece.(parts := piece.parts + [part]), None)
  }

  /** The line with the token behind it, or None if that is no line. */
  ghost function Extend(line: Line, token: string): Option<Line> {
    match line.stage
    case Fresh(bindings) =>
      if Binding(token).Some? then Plus(line, Fresh(bindings + [token]))
      else if token == "cd" then (if bindings == [] then Plus(line, In(Go(None), None)) else None)
      else Plus(line, In(Run(bindings, token, []), None))
    case In(Go(dir), _) =>
      if token == "&&" then Closed(line, And)
      else if dir == None then Plus(line, In(Go(Some(token)), None))
      else None
    case In(piece, None) =>
      if token == "<" || token == ">" || token == "2>" then Plus(line, In(piece, Some(token)))
      else if token == "2>&1" then (if Errors(piece.parts) == [] then Plus(line, WithPart(piece, ErrorToOutput)) else None)
      else if token == "|" then (if Outputs(piece.parts) == [] then Closed(line, Pipe) else None)
      else if token == "&&" then Closed(line, And)
      else if token == "||" then Closed(line, Or)
      else Plus(line, WithPart(piece, Word(token)))
    case In(piece, Some(sign)) =>
      if sign == "<" then (if Inputs(piece.parts) == [] then Plus(line, WithPart(piece, From(token))) else None)
      else if sign == ">" then (if Outputs(piece.parts) == [] then Plus(line, WithPart(piece, To(token))) else None)
      else (if Errors(piece.parts) == [] then Plus(line, WithPart(piece, ErrorTo(token))) else None)
  }

  lemma StateIsCoherent(line: Line)
    requires Lawful(line)
    ensures Coherent(StateOf(line))
  {
  }

  /** One part more. */
  lemma PartAdded(parts: seq<Part>, part: Part)
    ensures var more := parts + [part];
            && PartsTokens(more) == PartsTokens(parts) + PartTokens(part)
            && Words(more) == Words(parts) + (if part.Word? then [part.text] else [])
            && Inputs(more) == Inputs(parts) + (if part.From? then [part.name] else [])
            && Outputs(more) == Outputs(parts) + (if part.To? then [part.name] else [])
            && Errors(more) == Errors(parts) + (if part.ErrorTo? then [File(part.name)] else if part.ErrorToOutput? then [STDOUT] else [])
  {
    assert (parts + [part])[..|parts|] == parts;
  }

  lemma BindingAdded(bindings: seq<string>, token: string)
    requires LawfulBindings(bindings) && Binding(token).Some?
    ensures LawfulBindings(bindings + [token])
    ensures Env(bindings + [token]) == Env(bindings)[Binding(token).value.0 := Binding(token).value.1]
  {
    assert (bindings + [token])[..|bindings|] == bindings;
  }

  lemma PieceClosed(done: seq<(Piece, Node)>, piece: Piece, op: Node)
    requires LawfulDone(done) && LawfulStep(piece, op)
    ensures var more := done + [(piece, op)];
            && LawfulDone(more)
            && Nodes(more) == Nodes(done) + [ItemOf(piece, op == Pipe), op]
            && DoneTokens(more) == DoneTokens(done) + PieceTokens(piece) + [OpToken(op)]
  {
    hide LawfulStep, ItemOf, PieceTokens, OpToken;
    assert (done + [(piece, op)])[..|done|] == done;
  }

  /** The line is extended as the machine steps. */
  ghost predicate Matches(line: Line, token: string)
    requires Lawful(line) && Coherent(StateOf(line))
  {
    match Extend(line, token)
    case None => Step(StateOf(line), token) == None
    case Some(more) =>
      && Lawful(more) && LineTokens(more) == LineTokens(line) + [token]
      && Step(StateOf(line), token) == Some(StateOf(more))
  }

  lemma EnvIsEmpty(bindings: seq<string>)
    requires LawfulBindings(bindings)
    ensures Env(bindings) == map[] <==> bindings == []
  {
    hide Binding;
    if bindings != [] {
      var last := |bindings| - 1;
      BindingAdded(bindings[..last], bindings[last]);
      assert bindings == bindings[..last] + [bindings[last]];
      assert Binding(bindings[last]).value.0 in Env(bindings);
    }
  }

  lemma FreshMatches(line: Line, token: string)
    requires Lawful(line) && Coherent(StateOf(line)) && line.stage.Fresh?
    ensures Matches(line, token)
  {
    hide Binding, LawfulDone, Nodes, DoneTokens, Env, LawfulBindings;
    var bindings := line.stage.bindings;
    EnvIsEmpty(bindings);
    assert DoneTokens(line.done) + (bindings + [token]) == DoneTokens(line.done) + bindings + [token];
    if Binding(token).Some? {
      BindingAdded(bindings, token);
    } else if token == "cd" {
      assert bindings == [] ==> DoneTokens(line.done) + bindings == DoneTokens(line.done);
    } else {
      NoParts();
      assert bindings + [token] + [] == bindings + [token] && [token] + [] == [token];
    }
  }

  lemma NoParts()
    ensures PartsTokens([]) == [] && Words([]) == [] && Inputs([]) == [] && Outputs([]) == [] && Errors([]) == []
  {
  }

  lemma ClosedMatches(line: Line, op: Node)
    requires Lawful(line) && line.stage.In? && line.stage.sign == None && LawfulStep(line.stage.piece, op)
    ensures var more := Closed(line, op).value;
            && Lawful(more) && LineTokens(more) == LineTokens(line) + [OpToken(op)]
            && StateOf(more) == ParseState(BEGIN, None, map[], Nodes(line.done) + [ItemOf(line.stage.piece, op == Pipe), op])
  {
    hide LawfulDone, Nodes, DoneTokens, PieceTokens, LawfulStep, ItemOf, OpToken;
    var piece := line.stage.piece;
    PieceClosed(line.done, piece, op);
    assert DoneTokens(line.done) + PieceTokens(piece) + [OpToken(op)] + [] == DoneTokens(line.done) + PieceTokens(piece) + [OpToken(op)];
    assert LawfulStage(Fresh([])) && Env([]) == map[];
  }

  lemma GoMatches(line: Line, token: string)
    requires Lawful(line) && Coherent(StateOf(line)) && line.stage.In? && line.stage.piece.Go?
    ensures Matches(line, token)
  {
    hide LawfulDone, Nodes, DoneTokens;
    var dir := line.stage.piece.dir;
    if token == "&&" {
      ClosedMatches(line, And);
    } else if dir == None {
      assert DoneTokens(line.done) + ["cd", token] == DoneTokens(line.done) + ["cd"] + [token];
    }
  }

  /** The command of a piece, whatever it is. */
  lemma PartMatches(line: Line, part: Part)
    requires Lawful(line) && line.stage.In? && line.stage.piece.Run?
    requires part.Word? ==> IsPlain(part.text)
    requires part.From? ==> Inputs(line.stage.piece.parts) == []
    requires part.To? ==> Outputs(line.stage.piece.parts) == []
    requires part.ErrorTo? || part.ErrorToOutput? ==> Errors(line.stage.piece.parts) == []
    ensures var piece := line.stage.piece;
            var more := line.(stage := WithPart(piece, part));
            var item := ItemOf(piece, false);
            && Lawful(more)
            && LineTokens(more) == DoneTokens(line.done) + PieceTokens(piece) + PartTokens(part)
            && StateOf(more) == ParseState(COMMAND, Some(match part
                 case Word(text) => item.(argv := item.argv + [text])
                 case From(name) => item.(stdin := Some(name))
                 case To(name) => item.(stdout := File(name))
                 case ErrorTo(name) => item.(stderr := File(name))
                 case ErrorToOutput => item.(stderr := STDOUT)), map[], Nodes(line.done))
  {
    hide LawfulDone, Nodes, DoneTokens, PartsTokens, PartTokens, Words, Inputs, Outputs, Errors, Binding, Env, LawfulBindings, IsPlain;
    var piece := line.stage.piece;
    PartAdded(piece.parts, part);
    assert piece.bindings + [piece.name] + (PartsTokens(piece.parts) + PartTokens(part))
        == piece.bindings + [piece.name] + PartsTokens(piece.parts) + PartTokens(part);
    assert [piece.name] + (Words(piece.parts) + (if part.Word? then [part.text] else []))
        == [piece.name] + Words(piece.parts) + (if part.Word? then [part.text] else []);
    assert Words(piece.parts) + [] == Words(piece.parts) && Inputs(piece.parts) + [] == Inputs(piece.parts);
    assert Outputs(piece.parts) + [] == Outputs(piece.parts) && Errors(piece.parts) + [] == Errors(piece.parts);
  }

  lemma {:induction false} ErrorsAreSet(parts: seq<Part>)
    ensures forall i :: 0 <= i < |Errors(parts)| ==> Errors(parts)[i] != Unset
  {
    if parts != [] {
      ErrorsAreSet(parts[..|parts| - 1]);
    }
  }

  lemma RunMatches(line: Line, token: string)
    requires Lawful(line) && Coherent(StateOf(line)) && line.stage.In? && line.stage.piece.Run? && line.stage.sign == None
    ensures Matches(line, token)
  {
    hide LawfulDone, Nodes, DoneTokens, LawfulParts, Env, LawfulBindings, Words, PieceTokens, WithPart;
    var piece := line.stage.piece;
    ErrorsAreSet(piece.parts);
    if token == "<" || token == ">" || token == "2>" {
      assert DoneTokens(line.done) + (PieceTokens(piece) + [token]) == DoneTokens(line.done) + PieceTokens(piece) + [token];
    } else if token == "2>&1" {
      if Errors(piece.parts) == [] {
        PartMatches(line, ErrorToOutput);
      }
    } else if token == "|" {
      if Outputs(piece.parts) == [] {
        ClosedMatches(line, Pipe);
      }
    } else if token == "&&" {
      ClosedMatches(line, And);
    } else if token == "||" {
      ClosedMatches(line, Or);
    } else {
      PartMatches(line, Word(token));
    }
  }

  lemma SignMatches(line: Line, token: string)
    requires Lawful(line) && Coherent(StateOf(line)) && line.stage.In? && line.stage.piece.Run? && line.stage.sign.Some?
    ensures Matches(line, token)
  {
    hide LawfulDone, Nodes, DoneTokens, LawfulParts, Env, LawfulBindings, Words, PieceTokens, WithPart;
    var piece, sign := line.stage.piece, line.stage.sign.value;
    ErrorsAreSet(piece.parts);
    var part := if sign == "<" then From(token) else if sign == ">" then To(token) else ErrorTo(token);
    assert DoneTokens(line.done) + (PieceTokens(piece) + [sign]) + [token] == DoneTokens(line.done) + PieceTokens(piece) + [sign, token];
    var plain := line.(stage := In(piece, None));
    if Extend(line, token).Some? {
      PartMatches(plain, part);
    }
  }

  lemma ExtendMatches(line: Line, token: string)
    requires Lawful(line)
    ensures Coherent(StateOf(line)) && Matches(line, token)
  {
    hide Matches, Lawful, StateOf;
    StateIsCoherent(line);
    if line.stage.Fresh? {
      FreshMatches(line, token);
    } else if line.stage.piece.Go? {
      GoMatches(line, token);
    } else if line.stage.sign == None {
      RunMatches(line, token);
    } else {
      SignMatches(line, token);
    }
  }

  // ----- every text is one line, every line one text

  lemma StepsSnoc(tokens: seq<string>, token: string)
    ensures Steps(START, tokens + [token]) ==
            match Steps(START, tokens) { case None => None case Some(st) => Step(st, token) }
  {
    hide Step;
    StepsInParts(START, tokens, [token]);
    if Steps(START, tokens).Some? {
      OneStep(Steps(START, tokens).value, token);
    }
  }

  /** What the machine reads without failing is a lawful line. */
  lemma {:induction false} LineOf(tokens: seq<string>) returns (line: Line)
    requires Steps(START, tokens).Some?
    ensures Lawful(line) && LineTokens(line) == tokens && StateOf(line) == Steps(START, tokens).value
    decreases |tokens|
  {
    hide Step, Extend;
    if tokens == [] {
      line := Line([], Fresh([]));
    } else {
      hide Steps, Lawful, LineTokens, StateOf;
      var init, token := tokens[..|tokens| - 1], tokens[|tokens| - 1];
      assert tokens == init + [token];
      StepsSnoc(init, token);
      var before := LineOf(init);
      ExtendMatches(before, token);
      line := Extend(before, token).value;
    }
  }

  /** A line without its last token. */
  ghost function Shorter(line: Line): Line
    requires LineTokens(line) != []
  {
    match line.stage
    case Fresh(bindings) =>
      if bindings == [] then
        assert line.done != [];
        Line(line.done[..|line.done| - 1], In(line.done[|line.done| - 1].0, None))
      else line.(stage := Fresh(bindings[..|bindings| - 1]))
    case In(Go(None), _) => line.(stage := Fresh([]))
    case In(Go(Some(_)), _) => line.(stage := In(Go(None), None))
    case In(piece, Some(_)) => line.(stage := In(piece, None))
    case In(Run(bindings, name, parts), None) =>
      if parts == [] then line.(stage := Fresh(bindings))
      else
        var less := Run(bindings, name, parts[..|parts| - 1]);
        match parts[|parts| - 1]
        case Word(_) => line.(stage := In(less, None))
        case ErrorToOutput => line.(stage := In(less, None))
        case From(_) => line.(stage := In(less, Some("<")))
        case To(_) => line.(stage := In(less, Some(">")))
        case ErrorTo(_) => line.(stage := In(less, Some("2>")))
  }

  ghost predicate Shortened(line: Line, token: string)
    requires LineTokens(line) != []
  {
    Lawful(Shorter(line)) && Extend(Shorter(line), token) == Some(line)
  }

  lemma FreshShortened(line: Line) returns (token: string)
    requires Lawful(line) && LineTokens(line) != [] && line.stage.Fresh?
    ensures Shortened(line, token)
  {
    hide Binding, LawfulPiece;
    var bindings := line.stage.bindings;
    if bindings == [] {
      var last := line.done[|line.done| - 1];
      assert LawfulStep(last.0, last.1);
      token := OpToken(last.1);
      assert line.done == line.done[..|line.done| - 1] + [last];
    } else {
      token := bindings[|bindings| - 1];
      assert bindings == bindings[..|bindings| - 1] + [token];
    }
  }

  lemma RunShortened(line: Line) returns (token: string)
    requires Lawful(line) && line.stage.In? && line.stage.piece.Run? && line.stage.sign == None
    requires LineTokens(line) != [] && line.stage.piece.parts != []
    ensures Shortened(line, token)
  {
    hide Binding, LawfulDone, Words, PartsTokens, LawfulBindings;
    var parts := line.stage.piece.parts;
    var less, part := parts[..|parts| - 1], parts[|parts| - 1];
    assert parts == less + [part];
    PartAdded(less, part);
    hide Inputs, Outputs, Errors;
    token := match part
      case Word(text) => text
      case From(name) => name
      case To(name) => name
      case ErrorTo(name) => name
      case ErrorToOutput => "2>&1";
  }

  lemma LineShortened(line: Line) returns (token: string)
    requires Lawful(line) && LineTokens(line) != []
    ensures Shortened(line, token)
  {
    hide Binding, LawfulDone;
    match line.stage
    case Fresh(_) => token := FreshShortened(line);
    case In(Go(None), _) => token := "cd";
      GoHasNoBinding();
    case In(Go(Some(dir)), _) => token := dir;
    case In(piece, Some(sign)) => token := sign;
    case In(Run(bindings, name, parts), None) =>
      if parts == [] {
        token := name;
      } else {
        token := RunShortened(line);
      }
  }

  lemma GoHasNoBinding()
    ensures Binding("cd") == None
  {
    assert "cd"[1..] == "d" && "d"[1..] == "";
    assert EqualsAt("d") == 1 && EqualsAt("cd") == 2;
  }

  /** Every lawful line is read to the end, as what it means. */
  lemma {:induction false} LineIsRead(line: Line)
    requires Lawful(line)
    ensures Steps(START, LineTokens(line)) == Some(StateOf(line))
    decreases |LineTokens(line)|
  {
    hide Step, Extend, Lawful, StateOf, Shorter;
    if LineTokens(line) == [] {
      NothingRead(line);
    } else {
      var token := LineShortened(line);
      var before := Shorter(line);
      ExtendMatches(before, token);
      LineIsRead(before);
      StepsSnoc(LineTokens(before), token);
    }
  }

  lemma NothingRead(line: Line)
    requires Lawful(line) && LineTokens(line) == []
    ensures StateOf(line) == START
  {
    assert line.done == [] && line.stage == Fresh([]);
  }

  // ----- what parse accepts, and what it returns

  /** The line ends in a piece; a redirection sign at its very end is read and ignored. */
  ghost predicate Spells(line: Line, tokens: seq<string>) {
    Lawful(line) && line.stage.In? && LineTokens(line) == tokens
  }

  ghost function Meaning(line: Line): seq<Node>
    requires Lawful(line) && line.stage.In?
  {
    Nodes(line.done) + [ItemOf(line.stage.piece, false)]
  }

  lemma SpelledIsParsed(line: Line, tokens: seq<string>)
    requires Spells(line, tokens)
    ensures Parse(tokens) == Some(Meaning(line))
  {
    hide Steps, LineTokens, Nodes, ItemOf, LawfulDone, LawfulPiece;
    LineIsRead(line);
  }

  lemma ParsedIsSpelled(tokens: seq<string>) returns (line: Line)
    requires Parse(tokens).Some?
    ensures Spells(line, tokens) && Meaning(line) == Parse(tokens).value
  {
    hide Steps, LineTokens, Nodes, ItemOf, LawfulDone, LawfulPiece, LawfulBindings, Env;
    line := LineOf(tokens);
  }

  /** parse returns a pipeline exactly if the tokens spell a lawful line that means it. */
  lemma ParseIff(tokens: seq<string>, p: seq<Node>)
    ensures Parse(tokens) == Some(p) <==> exists line :: Spells(line, tokens) && Meaning(line) == p
  {
    hide Parse, LineTokens, Nodes, ItemOf, LawfulDone, LawfulPiece;
    if Parse(tokens) == Some(p) {
      var line := ParsedIsSpelled(tokens);
    }
    if line :| Spells(line, tokens) && Meaning(line) == p {
      SpelledIsParsed(line, tokens);
    }
  }

  /** parse fails on exactly the texts that are no lawful line. */
  lemma AcceptedIff(tokens: seq<string>)
    ensures Parse(tokens).Some? <==> exists line :: Spells(line, tokens)
  {
    hide Parse, Spells;
    if Parse(tokens).Some? {
      ParseIff(tokens, Parse(tokens).value);
    }
    if line :| Spells(line, tokens) {
      SpelledIsParsed(line, tokens);
    }
  }

  /** m > l | c: a redirected output cannot also be piped. */
  lemma RedirectedIsNotPiped()
    ensures Parse(["m", ">", "l", "|", "c"]) == None
  {
    var tokens := ["m", ">", "l", "|", "c"];
    var before := Line([], In(Run([], "m", [To("l")]), None));
    assert Binding("m") == None by { assert "m"[1..] == "" && EqualsAt("m") == 1; }
    assert [To("l")][..0] == [];
    assert Outputs([To("l")]) == ["l"] && PartsTokens([To("l")]) == [">", "l"];
    assert Lawful(before);
    ExtendMatches(before, "|");
    LineIsRead(before);
    assert LineTokens(before) == ["m", ">", "l"];
    StepsSnoc(["m", ">", "l"], "|");
    StepsSnoc(["m", ">", "l", "|"], "c");
    assert ["m", ">", "l"] + ["|"] == ["m", ">", "l", "|"] && ["m", ">", "l", "|"] + ["c"] == tokens;
  }

  lemma NewlineIsDropped(token: string)
    requires token != "" && token[|token| - 1] != '\n'
    ensures Binding(token + "\n") == Binding(token)
  {
    assert (token + "\n")[..|token|] == token;
  }

  lemma BindingHasParts(token: string)
    requires Binding(token).Some?
    ensures var (name, value) := Binding(token).value;
            IsName(name) && IsValue(value) && (token == name + "=" + value || token == name + "=" + value + "\n")
  {
    hide IsName, IsValue;
    var body := if token != "" && token[|token| - 1] == '\n' then token[..|token| - 1] else token;
    var n := EqualsAt(body);
    assert body == body[..n] + "=" + body[n + 1..];
    assert token == body || token == body + "\n";
  }

  lemma ValueEnds(name: string, value: string)
    requires IsValue(value)
    ensures var token := name + "=" + value; token != "" && token[|token| - 1] != '\n'
  {
    assert value[|value| - 1] in value;
  }

  /** A binding is a name, '=' and a value without spaces, and perhaps one newline behind. */
  lemma BindingIff(token: string, name: string, value: string)
    ensures Binding(token) == Some((name, value)) <==>
            IsName(name) && IsValue(value) && (token == name + "=" + value || token == name + "=" + value + "\n")
  {
    hide Binding, IsName, IsValue;
    if Binding(token) == Some((name, value)) {
      BindingHasParts(token);
    }
    if IsName(name) && IsValue(value) {
      BindingOf(name, value);
      ValueEnds(name, value);
      NewlineIsDropped(name + "=" + value);
    }
  }
}
