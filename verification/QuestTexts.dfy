/** Every quest there can be has a text that reads back as this quest. */
module QuestTexts {
  import opened Bytes
  import opened QuestParser
  import opened QuestRoundTrip
  import opened QuestSyntax
  import opened QuestTokens

  // ---------- what a text can mean ----------

  predicate PlainExpression(e: Expression) {
    && e.callee != "goto" && (e.callee == "" ==> e == NOTHING)
    && forall d :: d in e.args ==> !d.NoData?
  }

  /** Of two expressions the first is not missing alone. */
  predicate PlainPair(expr: Expression, act: Expression) {
    PlainExpression(expr) && PlainExpression(act) && (expr == NOTHING ==> act == NOTHING)
  }

  predicate PlainRule(r: Rule) {
    PlainPair(r.expr, r.action.expr) && r.action.cond == Always && r.action.condExpr == NOTHING
  }

  predicate PlainAction(a: Action) {
    if a.cond == If || a.cond == ElseIf then PlainPair(a.condExpr, a.expr)
    else PlainExpression(a.expr) && a.condExpr == NOTHING
  }

  predicate PlainState(s: State) {
    && (forall i :: 0 <= i < |s.rules| ==> PlainRule(s.rules[i]))
    && (forall i :: 0 <= i < |s.actions| ==> PlainAction(s.actions[i]))
    && (s.goal == 0 || s.goal < |s.rules|)
  }

  // ---------- expressions ----------

  function ArgOf(d: Data): Token {
    if d.Text? then Quoted(d.s) else if d.Number? then Numeral(d.n) else Quoted("")
  }

  function ArgsOf(args: seq<Data>): seq<Token> {
    if args == [] then [] else [ArgOf(args[0])] + ArgsOf(args[1..])
  }

  function PhraseOf(e: Expression): Phrase {
    if e == NOTHING then Nothing else Call(e.callee, e.scopes, ArgsOf(e.args))
  }

  lemma {:induction false} ArgsMean(args: seq<Data>)
    requires forall d :: d in args ==> !d.NoData?
    ensures DataOf(ArgsOf(args)) == args && forall t :: t in ArgsOf(args) ==> ArgumentToken(t)
  {
    if args != [] {
      ArgsMean(args[1..]);
      assert ArgsOf(args)[1..] == ArgsOf(args[1..]);
    }
  }

  lemma PhraseMeans(e: Expression)
    requires PlainExpression(e)
    ensures PhraseFits(PhraseOf(e)) && ExpressionOf(PhraseOf(e)) == e
  {
    ArgsMean(e.args);
  }

  // ---------- states ----------

  /** A rule or a goal; the first rule needs no keyword to be the goal. */
  function RuleEntry(s: State, i: nat): (e: Entry)
    requires i < |s.rules|
    ensures e.RuleLine?
  {
    RuleLine(i == s.goal && i > 0, PhraseOf(s.rules[i].expr), PhraseOf(s.rules[i].action.expr))
  }

  function ActionEntry(a: Action): (e: Entry)
    ensures e.ActionLine? || e.ChoiceLine?
  {
    match a.cond
    case Always => ActionLine(false, PhraseOf(a.expr))
    case Else => ActionLine(true, PhraseOf(a.expr))
    case If => ChoiceLine(IfWord, PhraseOf(a.condExpr), PhraseOf(a.expr))
    case ElseIf => ChoiceLine(ElseIfWord, PhraseOf(a.condExpr), PhraseOf(a.expr))
  }

  /** The description and the first `k` of all rules and actions, each with a semicolon behind it. */
  function Entries(s: State, k: nat): (es: seq<Entry>)
    requires k <= |s.rules| + |s.actions|
    ensures es != [] && es[|es| - 1] == Semicolon
  {
    if k == 0 then [Desc(s.desc), Semicolon]
    else
      var e := if k <= |s.rules| then RuleEntry(s, k - 1) else ActionEntry(s.actions[k - 1 - |s.rules|]);
      Entries(s, k - 1) + [e, Semicolon]
  }

  lemma PairNext(before: seq<Entry>, e: Entry)
    requires EntriesFit(before) && EntryFits(e)
    requires before == [] || before[|before| - 1] == Semicolon
    ensures EntriesFit(before + [e, Semicolon])
    ensures BlockOf(before + [e, Semicolon]) == BlockOf(before + [e])
  {
    var one := before + [e];
    assert before + [e, Semicolon] == one + [Semicolon];
    SemicolonReads(one);
    hide EntryFits, OpenEnded, BlockOf;
    var all := before + [e, Semicolon];
    assert EntryFits(Semicolon) && !OpenEnded(Semicolon) by {
      SemicolonPlain();
    }
    forall i | 0 <= i < |all| ensures EntryFits(all[i]) {
      assert i < |before| ==> all[i] == before[i];
    }
    forall i | 0 <= i < |all| - 1 && OpenEnded(all[i]) ensures all[i + 1].Semicolon? {
      assert i < |before| ==> all[i] == before[i];
    }
  }

  lemma SemicolonPlain()
    ensures EntryFits(Semicolon) && !OpenEnded(Semicolon)
  {
  }

  lemma DescMeans(text: string)
    ensures EntriesFit([Desc(text), Semicolon])
    ensures BlockOf([Desc(text), Semicolon]) == Block([], [], text, true, 0)
  {
    var none: seq<Entry> := [];
    PairNext(none, Desc(text));
    BlockNext(none, Desc(text));
    assert none + [Desc(text), Semicolon] == [Desc(text), Semicolon];
  }

  lemma RuleMeans(s: State, i: nat, before: seq<Entry>)
    requires i < |s.rules| && PlainState(s)
    ensures EntryFits(RuleEntry(s, i))
    ensures
      var b := BlockOf(before);
      BlockOf(before + [RuleEntry(s, i)])
      == b.(rules := b.rules + [s.rules[i]], goal := if i == s.goal && i > 0 then |b.rules| else b.goal)
  {
    var r := s.rules[i];
    assert PlainRule(r);
    PhraseMeans(r.expr);
    PhraseMeans(r.action.expr);
    BlockNext(before, RuleEntry(s, i));
    hide RulesOf, ActionsOf, DescsOf, GoalOf, PhraseOf, ExpressionOf;
    assert PhraseOf(NOTHING) == Nothing by {
      NothingIsMissing();
    }
    MissingOnly(r.expr);
  }

  lemma NothingIsMissing()
    ensures PhraseOf(NOTHING) == Nothing
  {
  }

  lemma MissingOnly(e: Expression)
    ensures PhraseOf(e).Nothing? <==> e == NOTHING
  {
  }

  lemma ActionMeans(s: State, i: nat, before: seq<Entry>)
    requires i < |s.actions| && PlainState(s)
    ensures EntryFits(ActionEntry(s.actions[i]))
    ensures
      var b := BlockOf(before);
      BlockOf(before + [ActionEntry(s.actions[i])]) == b.(actions := b.actions + [s.actions[i]])
  {
    var a := s.actions[i];
    assert PlainAction(a);
    PhraseMeans(a.expr);
    if a.cond == If || a.cond == ElseIf {
      PhraseMeans(a.condExpr);
    }
    BlockNext(before, ActionEntry(a));
    MissingOnly(a.expr);
    MissingOnly(a.condExpr);
    hide RulesOf, ActionsOf, DescsOf, GoalOf, PhraseOf, ExpressionOf;
  }

  function Least(a: nat, b: nat): nat {
    if a < b then a else b
  }

  lemma {:induction false} EntriesMean(s: State, k: nat)
    requires PlainState(s) && k <= |s.rules| + |s.actions|
    ensures EntriesFit(Entries(s, k))
    ensures
      var rules := Least(k, |s.rules|);
      BlockOf(Entries(s, k))
      == Block(s.rules[..rules], s.actions[..k - rules], s.desc, true, if s.goal < rules then s.goal else 0)
    decreases k
  {
    hide EntriesFit, BlockOf, RuleEntry, ActionEntry, EntryFits, PlainState;
    if k == 0 {
      DescMeans(s.desc);
      assert s.rules[..0] == [] && s.actions[..0] == [];
    } else {
      EntriesMean(s, k - 1);
      var before := Entries(s, k - 1);
      if k <= |s.rules| {
        RuleMeans(s, k - 1, before);
        PairNext(before, RuleEntry(s, k - 1));
        assert s.rules[..k] == s.rules[..k - 1] + [s.rules[k - 1]];
      } else {
        var i := k - 1 - |s.rules|;
        ActionMeans(s, i, before);
        PairNext(before, ActionEntry(s.actions[i]));
        assert s.actions[..i + 1] == s.actions[..i] + [s.actions[i]];
        assert (k - 1) - Least(k - 1, |s.rules|) == i && k - Least(k, |s.rules|) == i + 1;
      }
    }
  }

  function BlockFor(s: State): TopBlock {
    StateBlock(s.name, Entries(s, |s.rules| + |s.actions|))
  }

  /** Every state has a text. */
  lemma StateMeans(s: State)
    requires PlainState(s)
    ensures TopFits(BlockFor(s)) && TopSound(BlockFor(s))
    ensures StateOf(s.name, BlockFor(s).entries) == s
  {
    var k := |s.rules| + |s.actions|;
    EntriesMean(s, k);
    OneDesc(s, k);
    assert s.rules[..|s.rules|] == s.rules && s.actions[..|s.actions|] == s.actions;
    hide RulesOf, ActionsOf, DescsOf, GoalOf, EntriesFit, Entries;
  }

  lemma PairDescs(before: seq<Entry>, e: Entry)
    ensures DescsOf(before + [e, Semicolon]) == if e.Desc? then DescsOf(before) + [e.text] else DescsOf(before)
  {
    BlockNext(before, e);
    BlockNext(before + [e], Semicolon);
    assert before + [e, Semicolon] == before + [e] + [Semicolon];
  }

  lemma {:induction false} OneDesc(s: State, k: nat)
    requires k <= |s.rules| + |s.actions|
    ensures |DescsOf(Entries(s, k))| == 1
  {
    if k == 0 {
      PairDescs([], Desc(s.desc));
      assert [] + [Desc(s.desc), Semicolon] == Entries(s, 0);
    } else {
      hide DescsOf, RuleEntry, ActionEntry;
      OneDesc(s, k - 1);
      var e := if k <= |s.rules| then RuleEntry(s, k - 1) else ActionEntry(s.actions[k - 1 - |s.rules|]);
      PairDescs(Entries(s, k - 1), e);
    }
  }

  // ---------- and no others ----------

  /** Every function has a name and every argument a value. */
  predicate Valued(p: Phrase) {
    p.Call? ==> p.callee != "" && forall t :: t in p.args ==> !t.data.NoData?
  }

  predicate EntryValued(e: Entry) {
    match e
    case Semicolon => true
    case Desc(_) => true
    case ActionLine(_, act) => Valued(act)
    case RuleLine(_, expr, act) => Valued(expr) && Valued(act)
    case ChoiceLine(_, expr, act) => Valued(expr) && Valued(act)
  }

  lemma {:induction false} DataValued(args: seq<Token>)
    requires forall t :: t in args ==> !t.data.NoData?
    ensures forall d :: d in DataOf(args) ==> !d.NoData?
  {
    if args != [] {
      DataValued(args[1..]);
    }
  }

  lemma PhrasePlain(p: Phrase)
    requires PhraseFits(p) && Valued(p)
    ensures PlainExpression(ExpressionOf(p))
  {
    if p.Call? {
      DataValued(p.args);
    }
  }

  lemma EntryPlain(e: Entry)
    requires EntryFits(e) && EntryValued(e)
    ensures e.RuleLine? ==> PlainPair(ExpressionOf(e.expr), ExpressionOf(e.act))
    ensures e.ChoiceLine? ==> PlainPair(ExpressionOf(e.expr), ExpressionOf(e.act))
    ensures e.ActionLine? ==> PlainExpression(ExpressionOf(e.act))
  {
    if e.RuleLine? || e.ChoiceLine? {
      PhrasePlain(e.expr);
      PhrasePlain(e.act);
    } else if e.ActionLine? {
      PhrasePlain(e.act);
    }
  }

  lemma {:induction false} EntriesPlain(name: string, es: seq<Entry>)
    requires forall i :: 0 <= i < |es| ==> EntryFits(es[i]) && EntryValued(es[i])
    ensures PlainState(StateOf(name, es))
  {
    if es != [] {
      hide EntryFits, EntryValued, ExpressionOf, PlainPair, PlainExpression;
      var n := |es| - 1;
      EntriesPlain(name, es[..n]);
      EntryPlain(es[n]);
    }
  }

  /** A text of a state, with no more than one description in it. */
  ghost predicate StateText(s: State, es: seq<Entry>) {
    && EntriesFit(es) && |DescsOf(es)| <= 1 && StateOf(s.name, es) == s
    && forall i :: 0 <= i < |es| ==> EntryValued(es[i])
  }

  lemma PhraseValued(e: Expression)
    requires PlainExpression(e)
    ensures Valued(PhraseOf(e))
  {
    ArgsValued(e.args);
  }

  lemma {:induction false} ArgsValued(args: seq<Data>)
    ensures forall t :: t in ArgsOf(args) ==> !t.data.NoData?
  {
    if args != [] {
      ArgsValued(args[1..]);
    }
  }

  lemma {:induction false} EntriesValued(s: State, k: nat)
    requires PlainState(s) && k <= |s.rules| + |s.actions|
    ensures forall i :: 0 <= i < |Entries(s, k)| ==> EntryValued(Entries(s, k)[i])
  {
    hide Valued, PlainExpression, PhraseOf;
    if k > 0 {
      EntriesValued(s, k - 1);
      if k <= |s.rules| {
        var r := s.rules[k - 1];
        assert PlainRule(r);
        PhraseValued(r.expr);
        PhraseValued(r.action.expr);
      } else {
        var a := s.actions[k - 1 - |s.rules|];
        assert PlainAction(a);
        PhraseValued(a.expr);
        if a.cond == If || a.cond == ElseIf {
          PhraseValued(a.condExpr);
        }
      }
    }
  }

  /** A state has a text if and only if it is plain. */
  lemma StateTextIff(s: State)
    ensures PlainState(s) <==> exists es :: StateText(s, es)
  {
    hide EntriesFit, Entries, EntryFits, EntryValued;
    if PlainState(s) {
      StateMeans(s);
      EntriesValued(s, |s.rules| + |s.actions|);
      hide PlainState, StateOf;
      assert StateText(s, BlockFor(s).entries);
    } else if es :| StateText(s, es) {
      FitsEach(es);
      EntriesPlain(s.name, es);
    }
  }

  lemma FitsEach(es: seq<Entry>)
    requires EntriesFit(es)
    ensures forall i :: 0 <= i < |es| ==> EntryFits(es[i])
  {
  }

  // ---------- the main block ----------

  function Lines(i: Info): seq<MainEntry> {
    [NameLine(i.name), VersionLine(i.version / 65536, Minor(i.version % 65536))]
    + HiddenLines(i)
    + (if i.disabled then [DisabledLine] else [])
  }

  lemma LineNext(before: seq<MainEntry>, e: MainEntry)
    ensures NamesOf(before + [e]) == if e.NameLine? then NamesOf(before) + [e.name] else NamesOf(before)
    ensures VersionsOf(before + [e])
      == if e.VersionLine? then VersionsOf(before) + [VersionOf(e)] else VersionsOf(before)
    ensures HiddensOf(before + [e])
      == if e.HiddenLine? then HiddensOf(before) + [if e.atEnd then HiddenEnd else IsHidden] else HiddensOf(before)
    ensures DisabledsOf(before + [e]) == if e.DisabledLine? then DisabledsOf(before) + 1 else DisabledsOf(before)
  {
    Last(before, e);
  }

  function HiddenLines(i: Info): seq<MainEntry> {
    if i.hidden == NotHidden then [] else [HiddenLine(i.hidden == HiddenEnd)]
  }

  lemma FlagsMean(before: seq<MainEntry>, i: Info)
    requires HiddensOf(before) == [] && DisabledsOf(before) == 0
    ensures
      var es := before + HiddenLines(i) + (if i.disabled then [DisabledLine] else []);
      && NamesOf(es) == NamesOf(before) && VersionsOf(es) == VersionsOf(before)
      && HiddensOf(es) == (if i.hidden == NotHidden then [] else [i.hidden])
      && DisabledsOf(es) == if i.disabled then 1 else 0
  {
    hide NamesOf, VersionsOf, HiddensOf, DisabledsOf;
    var hidden := before + HiddenLines(i);
    if i.hidden == NotHidden {
      assert hidden == before;
    } else {
      LineNext(before, HiddenLine(i.hidden == HiddenEnd));
    }
    if i.disabled {
      LineNext(hidden, DisabledLine);
    } else {
      assert hidden + [] == hidden;
    }
  }

  lemma FirstLine(e: MainEntry)
    requires e.NameLine?
    ensures NamesOf([e]) == [e.name] && VersionsOf([e]) == [] && HiddensOf([e]) == [] && DisabledsOf([e]) == 0
  {
    LineNext([], e);
    assert [] + [e] == [e];
  }

  /** Every main block has a text. */
  lemma InfoMeans(i: Info)
    requires i.version < 0x1_0000_0000
    ensures Once(Lines(i)) && InfoOf(Lines(i)) == i
  {
    hide NamesOf, VersionsOf, HiddensOf, DisabledsOf;
    var name, version := NameLine(i.name), VersionLine(i.version / 65536, Minor(i.version % 65536));
    FirstLine(name);
    LineNext([name], version);
    assert [name] + [version] == [name, version];
    FlagsMean([name, version], i);
    assert VersionOf(version) == i.version;
  }

  // ---------- quests ----------

  function Blocks(i: Info, ss: seq<State>): seq<TopBlock> {
    if ss == [] then [MainBlock(Lines(i))] else Blocks(i, ss[..|ss| - 1]) + [BlockFor(ss[|ss| - 1])]
  }

  lemma {:induction false} BlocksMean(i: Info, ss: seq<State>)
    requires i.version < 0x1_0000_0000 && (forall k :: 0 <= k < |ss| ==> PlainState(ss[k]))
    ensures MainsOf(Blocks(i, ss)) == [i] && StatesOf(Blocks(i, ss)) == ss
  {
    hide Lines, PlainState, Entries, InfoOf, StateOf, TopFits, TopSound, MainsOf, StatesOf;
    if ss == [] {
      InfoMeans(i);
      NoStates(Lines(i));
    } else {
      var n := |ss| - 1;
      BlocksMean(i, ss[..n]);
      StateMeans(ss[n]);
      TopNext(Blocks(i, ss[..n]), BlockFor(ss[n]));
      assert ss == ss[..n] + [ss[n]];
    }
  }

  lemma NoStates(es: seq<MainEntry>)
    ensures MainsOf([MainBlock(es)]) == [InfoOf(es)] && StatesOf([MainBlock(es)]) == []
  {
    hide InfoOf;
    TopNext([], MainBlock(es));
    assert [] + [MainBlock(es)] == [MainBlock(es)];
  }

  lemma {:induction false} BlocksFit(i: Info, ss: seq<State>)
    requires i.version < 0x1_0000_0000 && (forall k :: 0 <= k < |ss| ==> PlainState(ss[k]))
    ensures forall k :: 0 <= k < |Blocks(i, ss)| ==> TopFits(Blocks(i, ss)[k]) && TopSound(Blocks(i, ss)[k])
  {
    hide Lines, BlockFor, PlainState, TopFits, TopSound, Once;
    if ss == [] {
      InfoMeans(i);
      MainBlockFits(Lines(i));
    } else {
      var n := |ss| - 1;
      BlocksFit(i, ss[..n]);
      StateMeans(ss[n]);
    }
  }

  lemma MainBlockFits(es: seq<MainEntry>)
    requires Once(es)
    ensures TopFits(MainBlock(es)) && TopSound(MainBlock(es))
  {
  }

  lemma OnlyNames(bs: seq<TopBlock>, e: Error)
    requires (forall k :: 0 <= k < |bs| ==> TopSound(bs[k])) && |MainsOf(bs)| == 1 && Fault(bs, e)
    ensures e == TwoStates && !Distinct(StatesOf(bs))
  {
    hide MainsOf, StatesOf, DescsOf, Distinct, MainFault;
    forall k | 0 <= k < |bs| && bs[k].MainBlock? ensures !MainFault(bs[k].lines, e) {
      assert TopSound(bs[k]);
      SoundMain(bs[k].lines, e);
    }
    forall k | 0 <= k < |bs| && bs[k].StateBlock? ensures |DescsOf(bs[k].entries)| <= 1 {
      assert TopSound(bs[k]);
    }
  }

  lemma SoundMain(es: seq<MainEntry>, e: Error)
    requires Once(es)
    ensures !MainFault(es, e)
  {
  }

  /**
   Any main block and any list of states, written down, read back as that main block and exactly those states under
   their names, if and only if no two states share a name; otherwise the quest is refused for that reason.
   */
  lemma EveryQuestHasText(i: Info, ss: seq<State>, tail: Tokens)
    requires i.version < 0x1_0000_0000 && (forall k :: 0 <= k < |ss| ==> PlainState(ss[k]))
    ensures
      var r := ParsedQuest(RenderTops(Blocks(i, ss)) + ([END] + tail), NO_QUEST);
      if Distinct(ss) then
        && r.Ok? && r.value.hasInfo && r.value.info == i
        && r.value.states.Keys == (set k | 0 <= k < |ss| :: ss[k].name)
        && (forall k :: 0 <= k < |ss| ==> r.value.states[ss[k].name] == ss[k])
      else r == Err(TwoStates)
  {
    hide ParsedQuest, RenderTops, TopFits, TopSound, Blocks, PlainState, Fault, MainsOf, StatesOf;
    var bs := Blocks(i, ss);
    var ts := RenderTops(bs) + ([END] + tail);
    BlocksMean(i, ss);
    BlocksFit(i, ss);
    QuestRoundTrip.QuestRoundTrip(bs, ts, tail);
    if !QuestSound(bs) {
      OnlyNames(bs, ParsedQuest(ts, NO_QUEST).error);
    }
  }
}
