/** The pipelines of waf-tools/shellcmd.py and the six-state machine that builds one from a list of tokens. */
module ShellSyntax {
  import opened Wrappers

  /** Where a command's output goes: nowhere special, a file, the next command, or (for stderr) its own stdout. */
  datatype Stream = Unset | File(name: string) | PIPE | STDOUT

  datatype Node =
    | Command(argv: seq<string>, stdin: Option<string>, stdout: Stream, stderr: Stream, env: map<string, string>)
    | Chdir(dir: Option<string>)
    | Pipe
    | And
    | Or
  {
    predicate IsOp() { Pipe? || And? || Or? }
  }

  // ----- environment bindings: ^([a-zA-Z0-9_]+)=(\S+)$

  predicate IsNameChar(c: char) {
    'a' <= c <= 'z' || 'A' <= c <= 'Z' || '0' <= c <= '9' || c == '_'
  }

  predicate IsSpace(c: char) {
    c == ' ' || '\t' <= c <= '\r'
  }

  predicate IsName(s: string) {
    s != "" && forall c :: c in s ==> IsNameChar(c)
  }

  predicate IsValue(s: string) {
    s != "" && forall c :: c in s ==> !IsSpace(c)
  }

  /** Position of the first '=', or the length. */
  function EqualsAt(s: string): (n: nat)
    ensures n <= |s| && '=' !in s[..n] && (n < |s| ==> s[n] == '=')
  {
    if s == "" || s[0] == '=' then 0 else 1 + EqualsAt(s[1..])
  }

  function Binding(token: string): Option<(string, string)> {
    var body := if token != "" && token[|token| - 1] == '\n' then token[..|token| - 1] else token;
    var n := EqualsAt(body);
    if n < |body| && IsName(body[..n]) && IsValue(body[n + 1..]) then Some((body[..n], body[n + 1..])) else None
  }

  // ----- the state machine

  datatype Mode = BEGIN | COMMAND | CHDIR | TO_STDERR | TO_STDOUT | FROM_STDIN

  datatype ParseState = ParseState(mode: Mode, current: Option<Node>, env: map<string, string>, pipeline: seq<Node>)

  const START := ParseState(BEGIN, None, map[], [])

  /** In a command mode there is a command, in the directory mode a cd; between commands there is nothing. */
  ghost predicate Coherent(st: ParseState) {
    match st.mode
    case BEGIN => st.current.None?
    case CHDIR => st.current.Some? && st.current.value.Chdir? && st.env == map[]
    case _ => st.current.Some? && st.current.value.Command? && st.env == map[]
  }

  /** The command or cd is finished and an operator follows. */
  function Commit(st: ParseState, op: Node): ParseState
    requires st.current.Some?
  {
    ParseState(BEGIN, None, st.env, st.pipeline + [st.current.value, op])
  }

  /** One token; None is a failed assertion. */
  function Step(st: ParseState, token: string): (r: Option<ParseState>)
    requires Coherent(st)
    ensures r.Some? ==> Coherent(r.value)
  {
    match st.mode
    case BEGIN =>
      var binding := Binding(token);
      if binding.Some? then Some(st.(env := st.env[binding.value.0 := binding.value.1]))
      else if token == "cd" then
        if st.env != map[] then None else Some(st.(mode := CHDIR, current := Some(Chdir(None))))
      else Some(st.(mode := COMMAND, current := Some(Command([token], None, Unset, Unset, st.env)), env := map[]))
    case COMMAND =>
      var cmd := st.current.value;
      if token == ">" then Some(st.(mode := TO_STDOUT))
      else if token == "2>" then Some(st.(mode := TO_STDERR))
      else if token == "2>&1" then
        if cmd.stderr != Unset then None else Some(st.(current := Some(cmd.(stderr := STDOUT))))
      else if token == "<" then Some(st.(mode := FROM_STDIN))
      else if token == "|" then
        if cmd.stdout != Unset then None else Some(Commit(st.(current := Some(cmd.(stdout := PIPE))), Pipe))
      else if token == "&&" then Some(Commit(st, And))
      else if token == "||" then Some(Commit(st, Or))
      else Some(st.(current := Some(cmd.(argv := cmd.argv + [token]))))
    case CHDIR =>
      if token == "&&" then Some(Commit(st, And))
      else if st.current.value.dir != None then None
      else Some(st.(current := Some(Chdir(Some(token)))))
    case TO_STDOUT =>
      if st.current.value.stdout != Unset then None
      else Some(st.(mode := COMMAND, current := Some(st.current.value.(stdout := File(token)))))
    case TO_STDERR =>
      if st.current.value.stderr != Unset then None
      else Some(st.(mode := COMMAND, current := Some(st.current.value.(stderr := File(token)))))
    case FROM_STDIN =>
      if st.current.value.stdin != None then None
      else Some(st.(mode := COMMAND, current := Some(st.current.value.(stdin := Some(token)))))
  }

  function Steps(st: ParseState, tokens: seq<string>): (r: Option<ParseState>)
    requires Coherent(st)
    ensures r.Some? ==> Coherent(r.value)
    decreases |tokens|
  {
    if tokens == [] then Some(st)
    else
      match Step(st, tokens[0])
      case None => None
      case Some(next) => Steps(next, tokens[1..])
  }

  /** The last commit, which fails if no command was begun. */
  function Finish(st: ParseState): Option<seq<Node>> {
    if st.current.None? then None else Some(st.pipeline + [st.current.value])
  }

  function Parse(tokens: seq<string>): Option<seq<Node>> {
    match Steps(START, tokens)
    case None => None
    case Some(st) => Finish(st)
  }
}
