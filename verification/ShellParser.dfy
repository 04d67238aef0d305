/** Pipeline.parse of waf-tools/shellcmd.py, and what can be said of every pipeline it returns. */
module ShellParser {
  import opened ShellSyntax
  import opened Wrappers

  class Pipeline {
    var currentCommand: Option<Node>
    var pipeline: seq<Node>

    constructor ()
      ensures pipeline == [] && currentCommand == None
    {
      currentCommand, pipeline := None, [];
    }

    method CommitCommand() returns (ok: bool)
      modifies this
      ensures ok == old(currentCommand).Some?
      ensures currentCommand == None
      ensures pipeline == old(pipeline) + (if ok then [old(currentCommand).value] else [])
    {
      if currentCommand == None {
        return false;
      }
      pipeline := pipeline + [currentCommand.value];
      currentCommand := None;
      ok := true;
    }

    /** None is an assertion that failed. */
    method ParseTokens(command: seq<string>) returns (r: Option<seq<Node>>)
      modifies this
      ensures r == Parse(command)
      ensures r.Some? ==> pipeline == r.value && currentCommand == None
    {
      currentCommand, pipeline := None, [];
      var tokens := command;
      var state, envVars := BEGIN, map[];
      while tokens != []
        invariant Coherent(ParseState(state, currentCommand, envVars, pipeline))
        invariant Steps(START, command) == Steps(ParseState(state, currentCommand, envVars, pipeline), tokens)
        decreases |tokens|
      {
        var token := tokens[0];
        tokens := tokens[1..];
        match state {
          case BEGIN =>
            var binding := Binding(token);
            if binding.Some? {
              envVars := envVars[binding.value.0 := binding.value.1];
            } else if token == "cd" {
              if envVars != map[] { return None; }
              currentCommand, state := Some(Chdir(None)), CHDIR;
            } else {
              currentCommand := Some(Command([token], None, Unset, Unset, envVars));
              envVars, state := map[], COMMAND;
            }
          case COMMAND =>
            var cmd := currentCommand.value;
            if token == ">" {
              state := TO_STDOUT;
            } else if token == "2>" {
              state := TO_STDERR;
            } else if token == "2>&1" {
              if cmd.stderr != Unset { return None; }
              currentCommand := Some(cmd.(stderr := STDOUT));
            } else if token == "<" {
              state := FROM_STDIN;
            } else if token == "|" {
              if cmd.stdout != Unset { return None; }
              currentCommand := Some(cmd.(stdout := PIPE));
              CommitWith(Pipe);
              state := BEGIN;
            } else if token == "&&" {
              CommitWith(And);
              state := BEGIN;
            } else if token == "||" {
              CommitWith(Or);
              state := BEGIN;
            } else {
              currentCommand := Some(cmd.(argv := cmd.argv + [token]));
            }
          case CHDIR =>
            if token == "&&" {
              CommitWith(And);
              state := BEGIN;
            } else {
              if currentCommand.value.dir != None { return None; }
              currentCommand := Some(Chdir(Some(token)));
            }
          case TO_STDOUT =>
            if currentCommand.value.stdout != Unset { return None; }
            currentCommand, state := Some(currentCommand.value.(stdout := File(token))), COMMAND;
          case TO_STDERR =>
            if currentCommand.value.stderr != Unset { return None; }
            currentCommand, state := Some(currentCommand.value.(stderr := File(token))), COMMAND;
          case FROM_STDIN =>
            if currentCommand.value.stdin != None { return None; }
            currentCommand, state := Some(currentCommand.value.(stdin := Some(token))), COMMAND;
        }
      }
      var ok := CommitCommand();
      if !ok { return None; }
      r := Some(pipeline);
    }

    method CommitWith(op: Node)
      requires currentCommand.Some?
      modifies this
      ensures currentCommand == None && pipeline == old(pipeline) + [old(currentCommand).value, op]
    {
      var _ := CommitCommand();
      pipeline := pipeline + [op];
    }
  }

  // ----- every parsed pipeline is safe to run

  /** Not a token that means something inside a command. */
  predicate IsPlain(token: string) {
    token !in {">", "2>", "2>&1", "<", "|", "&&", "||"}
  }

  ghost predicate BindingsOk(env: map<string, string>) {
    forall k :: k in env ==> IsName(k) && IsValue(env[k])
  }

  /** A command's streams fit what follows it: it writes to a pipe exactly if one follows. Its name is no binding and
      not cd, its arguments are plain, and its bindings are those the regular expression lets through. */
  ghost predicate CommandOk(node: Node, next: Option<Node>) {
    && node.Command?
    && (node.stdout == PIPE <==> next == Some(Pipe))
    && node.stdout != STDOUT && node.stderr != PIPE
    && node.argv != [] && Binding(node.argv[0]) == None && node.argv[0] != "cd"
    && (forall k :: 0 < k < |node.argv| ==> IsPlain(node.argv[k]))
    && BindingsOk(node.env)
  }

  /** After a cd comes && or the end. */
  ghost predicate ChdirOk(node: Node, next: Option<Node>) {
    node.Chdir? && node.dir != Some("&&") && (next == None || next == Some(And))
  }

  ghost predicate ItemOk(node: Node, next: Option<Node>) {
    CommandOk(node, next) || ChdirOk(node, next)
  }

  ghost predicate ItemAt(p: seq<Node>, i: nat)
    requires i < |p|
  {
    ItemOk(p[i], if i + 1 < |p| then Some(p[i + 1]) else None)
  }

  /** Items and operators alternate, starting with an item; a trailing operator has its item still to come. */
  ghost predicate Alternates(p: seq<Node>) {
    && (forall i: nat :: i < |p| && i % 2 == 1 ==> p[i].IsOp())
    && (forall i: nat :: i < |p| && i % 2 == 0 ==> ItemAt(p, i))
  }

  ghost predicate IsPipeline(p: seq<Node>) {
    |p| % 2 == 1 && Alternates(p)
  }

  ghost predicate StateOk(st: ParseState) {
    && Coherent(st) && |st.pipeline| % 2 == 0 && Alternates(st.pipeline)
    && (st.current.Some? ==> ItemOk(st.current.value, None)) && BindingsOk(st.env)
  }

  lemma AlternatesMore(p: seq<Node>, item: Node, op: Node)
    requires |p| % 2 == 0 && Alternates(p) && op.IsOp() && ItemOk(item, Some(op))
    ensures Alternates(p + [item, op])
  {
    hide ItemOk;
    var q := p + [item, op];
    forall i: nat | i < |q| && i % 2 == 0 ensures ItemAt(q, i) {
      if i < |p| {
        assert i + 1 < |p| && ItemAt(p, i);
      }
    }
  }

  lemma BindingIsOk(token: string)
    ensures Binding(token).Some? ==> IsName(Binding(token).value.0) && IsValue(Binding(token).value.1)
  {
  }

  lemma StepKeepsOk(st: ParseState, token: string)
    requires StateOk(st)
    ensures Step(st, token).Some? ==> StateOk(Step(st, token).value)
  {
    hide Alternates, Binding, IsName, IsValue;
    BindingIsOk(token);
    if st.mode == COMMAND && token == "|" && st.current.value.stdout == Unset {
      AlternatesMore(st.pipeline, st.current.value.(stdout := PIPE), Pipe);
    } else if (st.mode == COMMAND || st.mode == CHDIR) && token == "&&" {
      AlternatesMore(st.pipeline, st.current.value, And);
    } else if st.mode == COMMAND && token == "||" {
      AlternatesMore(st.pipeline, st.current.value, Or);
    }
  }

  lemma {:induction false} StepsKeepOk(st: ParseState, tokens: seq<string>)
    requires StateOk(st)
    ensures Steps(st, tokens).Some? ==> StateOk(Steps(st, tokens).value)
    decreases |tokens|
  {
    hide StateOk, Step;
    if tokens != [] {
      CoherentIfOk(st);
      StepKeepsOk(st, tokens[0]);
      if Step(st, tokens[0]).Some? {
        StepsKeepOk(Step(st, tokens[0]).value, tokens[1..]);
      }
    }
  }

  lemma CoherentIfOk(st: ParseState)
    requires StateOk(st)
    ensures Coherent(st)
  {
  }

  lemma AlternatesLast(p: seq<Node>, item: Node)
    requires |p| % 2 == 0 && Alternates(p) && ItemOk(item, None)
    ensures IsPipeline(p + [item])
  {
    hide ItemOk;
    var q := p + [item];
    forall i: nat | i < |q| && i % 2 == 0 ensures ItemAt(q, i) {
      if i < |p| {
        assert i + 1 < |p| && ItemAt(p, i);
      }
    }
  }

  /** Whatever tokens come in, what parse returns alternates items and operators, pipes exactly where a pipe follows,
      and has cd only before && or at the end. */
  lemma ParsedIsPipeline(tokens: seq<string>)
    ensures Parse(tokens).Some? ==> IsPipeline(Parse(tokens).value)
  {
    hide Steps, IsPipeline;
    StepsKeepOk(START, tokens);
    if Parse(tokens).Some? {
      var st := Steps(START, tokens).value;
      AlternatesLast(st.pipeline, st.current.value);
    }
  }

  // ----- parsing is compositional

  lemma {:induction false} StepsInParts(st: ParseState, a: seq<string>, b: seq<string>)
    requires Coherent(st)
    ensures Steps(st, a + b) ==
            match Steps(st, a) { case None => None case Some(mid) => Steps(mid, b) }
    decreases |a|
  {
    hide Step;
    if a == [] {
      assert a + b == b;
    } else {
      assert (a + b)[1..] == a[1..] + b;
      if Step(st, a[0]).Some? {
        StepsInParts(Step(st, a[0]).value, a[1..], b);
      }
    }
  }

  /** The pipeline built so far is only ever appended to: it does not influence the rest. */
  function Behind(prefix: seq<Node>, st: ParseState): ParseState {
    st.(pipeline := prefix + st.pipeline)
  }

  lemma StepBehind(prefix: seq<Node>, st: ParseState, token: string)
    requires Coherent(st)
    ensures Step(Behind(prefix, st), token) ==
            match Step(st, token) { case None => None case Some(next) => Some(Behind(prefix, next)) }
  {
    hide Binding;
    if st.current.Some? {
      assert forall item, op :: prefix + st.pipeline + [item, op] == prefix + (st.pipeline + [item, op]);
    }
  }

  lemma {:induction false} StepsBehind(prefix: seq<Node>, st: ParseState, tokens: seq<string>)
    requires Coherent(st)
    ensures Steps(Behind(prefix, st), tokens) ==
            match Steps(st, tokens) { case None => None case Some(end) => Some(Behind(prefix, end)) }
    decreases |tokens|
  {
    hide Step;
    if tokens != [] {
      StepBehind(prefix, st, tokens[0]);
      if Step(st, tokens[0]).Some? {
        StepsBehind(prefix, Step(st, tokens[0]).value, tokens[1..]);
      }
    }
  }

  /** What an operator token commits a finished line to; only a command may be followed by ||, or piped, and it can
      be piped only if its stdout is still free. */
  function Joined(first: seq<string>, token: string): Option<seq<Node>> {
    match Steps(START, first)
    case None => None
    case Some(st) =>
      if token == "&&" && (st.mode == COMMAND || st.mode == CHDIR) then
        Some(st.pipeline + [st.current.value, And])
      else if token == "||" && st.mode == COMMAND then
        Some(st.pipeline + [st.current.value, Or])
      else if token == "|" && st.mode == COMMAND && st.current.value.stdout == Unset then
        Some(st.pipeline + [st.current.value.(stdout := PIPE), Pipe])
      else None
  }

  /** Two lines joined by an operator parse to the two pipelines joined by that operator; the second is parsed as if
      it stood alone, with no environment bindings left over from the first. */
  lemma ParseJoined(first: seq<string>, token: string, second: seq<string>)
    requires Joined(first, token).Some?
    ensures Parse(first + [token] + second) ==
            match Parse(second) { case None => None case Some(p) => Some(Joined(first, token).value + p) }
  {
    var before := Joined(first, token).value;
    var st := Steps(START, first).value;
    assert Step(st, token) == Some(ParseState(BEGIN, None, map[], before));
    assert Steps(st, [token]) == Some(ParseState(BEGIN, None, map[], before));
    StepsInParts(START, first, [token]);
    StepsInParts(START, first + [token], second);
    assert ParseState(BEGIN, None, map[], before) == Behind(before, START);
    StepsBehind(before, START, second);
    if Steps(START, second).Some? && Steps(START, second).value.current.Some? {
      var end := Steps(START, second).value;
      assert before + end.pipeline + [end.current.value] == before + (end.pipeline + [end.current.value]);
    }
  }
}
