/** A whole pipeline of waf-tools/shellcmd.py against the reading of the Shell Command Language. */
module ShellReadings {
  import opened Wrappers
  import opened ShellSyntax
  import opened ShellParser
  import opened ShellPrinter
  import opened ShellMeaning

  /** What the left-associative reading of a pipeline starts and returns. */
  ghost function LeftReading(p: seq<Node>, code: Codes): Outcome
    requires IsPipeline(p) && GoodChdirs(p)
  {
    var (ran, status) := Eval(LeftTree(ChainFrom(p, 0)), code);
    Outcome(ran, Returned(status))
  }

  /** run does what the Shell Command Language says, for all exit codes, exactly if the pipeline does not mix && and ||. */
  lemma RunIsLeftAssociativeIff(p: seq<Node>)
    requires IsPipeline(p) && GoodChdirs(p)
    ensures (forall code: Codes :: RunFrom(p, 0, code) == LeftReading(p, code)) <==> OneKind(ChainFrom(p, 0).ops)
  {
    hide RunFrom, Eval, LeftTree, RightTree, OneKind;
    var c := ChainFrom(p, 0);
    hide ChainFrom, IsPipeline, GoodChdirs;
    if OneKind(c.ops) {
      forall code: Codes ensures RunFrom(p, 0, code) == LeftReading(p, code) {
        RunIsRightAssociative(p, 0, code);
        OneKindAgrees(c, code);
      }
    } else {
      var code := MixedDisagrees(c);
      RunIsRightAssociative(p, 0, code);
      assert RunFrom(p, 0, code) != LeftReading(p, code);
    }
  }

  // ----- the shortest line that is read differently: a && b || c

  ghost function Word(name: string): Node {
    Command([name], None, Unset, Unset, map[])
  }

  ghost function MixedPipeline(): seq<Node> {
    [Word("a"), And, Word("b"), Or, Word("c")]
  }

  lemma WordIsItem(name: string, next: Option<Node>)
    requires |name| == 1 && name[0] != '=' && next != Some(Pipe)
    ensures ItemOk(Word(name), next) && ItemTokens(Word(name)) == [name]
  {
    assert name[1..] == "";
    assert EqualsAt(name) == 1 + EqualsAt(name[1..]);
    assert |name[..|name| - 1]| == 0;
  }

  /** The line is accepted, and makes a pipeline that always returns. */
  lemma MixedLineIsAccepted()
    ensures Parse(["a", "&&", "b", "||", "c"]) == Some(MixedPipeline())
    ensures IsPipeline(MixedPipeline()) && GoodChdirs(MixedPipeline())
  {
    hide ItemOk, ItemTokens, Parse;
    var p := MixedPipeline();
    WordIsItem("a", Some(And));
    WordIsItem("b", Some(Or));
    WordIsItem("c", None);
    assert ItemAt(p, 0) && ItemAt(p, 2) && ItemAt(p, 4);
    ShowIsParsed(p);
    assert Show(p) == ["a", "&&", "b", "||", "c"];
  }

  lemma MixedReadings(code: Codes)
    requires IsPipeline(MixedPipeline()) && GoodChdirs(MixedPipeline()) && code(0) != 0
    ensures RunFrom(MixedPipeline(), 0, code) == Outcome([0], Returned(code(0)))
    ensures LeftReading(MixedPipeline(), code) == Outcome([0, 4], Returned(code(4)))
  {
    var p := MixedPipeline();
    hide IsPipeline, GoodChdirs;
    assert ChainFrom(p, 4) == Chain([[4]], []);
    assert ChainFrom(p, 2) == Chain([[2], [4]], [Or]);
    var c := ChainFrom(p, 0);
    assert c == Chain([[0], [2], [4]], [And, Or]);
    assert c.groups[..2] == [[0], [2]] && c.groups[..2][..1] == [[0]] && c.ops[..1] == [And] && c.ops[..1][..0] == [];
    assert LeftTree(Chain([[0]], [])) == Group([0]);
    assert LeftTree(Chain([[0], [2]], [And])) == Both(Group([0]), Group([2]));
    assert LeftTree(c) == Either(Both(Group([0]), Group([2])), Group([4]));
  }

  /** When a fails, run stops there with its status, where the Shell Command Language goes on to c. */
  lemma MixedLineIsReadDifferently(code: Codes)
    requires code(0) != 0
    ensures IsPipeline(MixedPipeline()) && GoodChdirs(MixedPipeline())
    ensures RunFrom(MixedPipeline(), 0, code) == Outcome([0], Returned(code(0)))
    ensures LeftReading(MixedPipeline(), code) == Outcome([0, 4], Returned(code(4)))
  {
    hide *;
    MixedLineIsAccepted();
    MixedReadings(code);
  }
}
