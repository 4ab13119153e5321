/** Parsing what is spelt as a quest gives its meaning, for every choice an author has. */
module QuestRoundTrip {
  import opened Bytes
  import opened QuestParser
  import opened QuestSyntax
  import opened QuestTokens

  lemma Took(t: Token, rest: Tokens, allow: set<Kind>)
    requires t.newlines == 0 && (t.kind == Invalid || t.kind in allow)
    ensures Got([t] + rest, allow) == (t, rest)
  {
  }

  lemma Refused(t: Token, rest: Tokens, allow: set<Kind>)
    requires t.kind != Invalid && t.kind !in allow
    ensures Got([t] + rest, allow) == (NONE, [t] + rest)
  {
  }

  // ---------- expressions ----------

  lemma OneArg(t: Token, sep: Token, rest: Tokens, before: seq<Data>)
    requires ArgumentToken(t) && (sep == Sym(",") || sep == Oper(CLOSE))
    ensures ParsedArgs([t] + ([sep] + rest), before) ==
      if sep == Oper(CLOSE) then Ok((before + [t.data], rest)) else ParsedArgs(rest, before + [t.data])
  {
    Took(t, [sep] + rest, ARGUMENT);
    Took(sep, rest, {Symbol, Operator});
  }

  lemma TwoFirst<T>(a: T, b: T, s: seq<T>, rest: seq<T>)
    ensures ([a, b] + s) + rest == [a] + ([b] + (s + rest))
  {
  }

  lemma {:induction false} ArgsRoundTrip(args: seq<Token>, rest: Tokens, before: seq<Data>)
    requires args != [] && (forall t :: t in args ==> ArgumentToken(t))
    ensures ParsedArgs(RenderArgs(args) + rest, before) == Ok((before + DataOf(args), rest))
    decreases |args|
  {
    hide ParsedArgs, ArgumentToken;
    var t := args[0];
    if |args| == 1 {
      assert RenderArgs(args) + rest == [t] + ([Oper(CLOSE)] + rest);
      OneArg(t, Oper(CLOSE), rest, before);
      assert DataOf(args) == [t.data] + DataOf(args[1..]) == [t.data];
    } else {
      var last := RenderArgs(args[1..]) + rest;
      TwoFirst(t, Sym(","), RenderArgs(args[1..]), rest);
      OneArg(t, Sym(","), last, before);
      ArgsRoundTrip(args[1..], rest, before + [t.data]);
      assert before + [t.data] + DataOf(args[1..]) == before + DataOf(args);
    }
  }

  lemma OneScope(scope: Scope, rest: Tokens, before: seq<Scope>)
    ensures ParsedScopes([Word(ScopeName(scope))] + ([Sym(".")] + rest), before) == ParsedScopes(rest, before + [scope])
  {
    assert ScopeOf(ScopeName(scope)) == [scope];
    Took(Word(ScopeName(scope)), [Sym(".")] + rest, {Identifier});
    Took(Sym("."), rest, {Symbol});
  }

  lemma NoScope(rest: Tokens, before: seq<Scope>)
    ensures ParsedScopes([Oper(OPEN)] + rest, before) == Ok((before, [Oper(OPEN)] + rest))
  {
    Refused(Oper(OPEN), rest, {Identifier});
  }

  lemma {:induction false} ScopesRoundTrip(scopes: seq<Scope>, rest: Tokens, before: seq<Scope>)
    ensures ParsedScopes(RenderScopes(scopes) + ([Oper(OPEN)] + rest), before)
      == Ok((before + scopes, [Oper(OPEN)] + rest))
    decreases |scopes|
  {
    hide ParsedScopes, ScopeName;
    var open := [Oper(OPEN)] + rest;
    if scopes == [] {
      ConcatEmpty(open);
      ConcatEmpty(before);
      NoScope(rest, before);
    } else {
      TwoFirst(Word(ScopeName(scopes[0])), Sym("."), RenderScopes(scopes[1..]), open);
      OneScope(scopes[0], RenderScopes(scopes[1..]) + open, before);
      ScopesRoundTrip(scopes[1..], rest, before + [scopes[0]]);
      assert before + [scopes[0]] + scopes[1..] == before + scopes;
    }
  }

  lemma CallRoundTrip(scopes: seq<Scope>, args: seq<Token>, rest: Tokens, f: string)
    requires forall t :: t in args ==> ArgumentToken(t)
    ensures ParsedCall([Oper(OPEN)] + (RenderArgs(args) + rest), scopes, f)
      == Ok((Expression(scopes, f, DataOf(args)), rest))
  {
    hide ParsedArgs;
    var tail := RenderArgs(args) + rest;
    Took(Oper(OPEN), tail, {Operator});
    if args == [] {
      assert tail == [Oper(CLOSE)] + rest;
      Took(Oper(CLOSE), rest, {Operator});
    } else {
      FirstArg(args, rest);
      assert ArgumentToken(args[0]);
      Refused(args[0], tail[1..], {Operator});
      ArgsRoundTrip(args, rest, []);
      ConcatEmpty(DataOf(args));
    }
  }

  lemma FirstArg(args: seq<Token>, rest: Tokens)
    requires args != []
    ensures RenderArgs(args) + rest == [args[0]] + (RenderArgs(args) + rest)[1..]
  {
  }

  lemma CallShape(p: Phrase, rest: Tokens)
    requires p.Call?
    ensures RenderPhrase(p) + rest
      == [Word(p.callee)] + (RenderScopes(p.scopes) + ([Oper(OPEN)] + (RenderArgs(p.args) + rest)))
  {
    hide RenderScopes, RenderArgs;
    var open, args, scopes := [Oper(OPEN)], RenderArgs(p.args), RenderScopes(p.scopes);
    ConcatAssociative(open, args, rest);
    ConcatAssociative(scopes, open + args, rest);
    ConcatAssociative([Word(p.callee)], scopes + (open + args), rest);
  }

  /** Any number of scopes behind the function name, and any arguments. */
  lemma CallReads(p: Phrase, rest: Tokens)
    requires p.Call? && PhraseFits(p)
    ensures ParsedExpression(RenderPhrase(p) + rest) == Ok((ExpressionOf(p), rest))
  {
    hide ParsedCall, ParsedScopes, RenderArgs, RenderScopes, RenderPhrase;
    var tail := RenderArgs(p.args) + rest;
    var scoped := RenderScopes(p.scopes) + ([Oper(OPEN)] + tail);
    CallShape(p, rest);
    Took(Word(p.callee), scoped, {Identifier});
    ScopesRoundTrip(p.scopes, tail, []);
    assert [] + p.scopes == p.scopes;
    CallRoundTrip(p.scopes, p.args, rest, p.callee);
  }

  /** The next token can end an entry. */
  predicate Ends(rest: Tokens) {
    rest != [] ==> rest[0].kind == Symbol
  }

  /** A call, a goto, or nothing at all in front of a symbol. */
  lemma ExpressionRoundTrip(p: Phrase, rest: Tokens)
    requires PhraseFits(p) && (p.Nothing? ==> Ends(rest))
    ensures ParsedExpression(RenderPhrase(p) + rest) == Ok((ExpressionOf(p), rest))
  {
    match p
    case Nothing => ConcatEmpty(rest);
    case Goto(target) =>
      assert RenderPhrase(p) + rest == [Word("goto")] + ([Word(target)] + rest);
      Took(Word("goto"), [Word(target)] + rest, {Identifier});
      Took(Word(target), rest, {Identifier});
    case Call(_, _, _) => CallReads(p, rest);
  }

  /** `goto x` and `setstate("x")` mean the same. */
  lemma GotoIsSetState(state: string, rest: Tokens)
    ensures ParsedExpression([Word("goto"), Word(state)] + rest)
      == ParsedExpression(RenderPhrase(Call("setstate", [], [Quoted(state)])) + rest)
      == Ok((Expression([], "setstate", [Text(state)]), rest))
  {
    ExpressionRoundTrip(Goto(state), rest);
    var call := Call("setstate", [], [Quoted(state)]);
    ExpressionRoundTrip(call, rest);
    assert DataOf(call.args) == [Text(state)];
  }

  /**
   A scope is only looked for behind the function name, so a call written scope first, as in `character.foo()`,
   is refused whatever follows the dot.
   */
  lemma ScopeFirstIsRefused(scope: string, rest: Tokens)
    requires ScopeOf(scope) != []
    ensures ParsedExpression([Word(scope), Sym(".")] + rest) == Err(ExpectedOpen)
  {
    var tail := [Sym(".")] + rest;
    assert [Word(scope), Sym(".")] + rest == [Word(scope)] + tail;
    Took(Word(scope), tail, {Identifier});
    Refused(Sym("."), rest, {Identifier});
    Refused(Sym("."), rest, {Operator});
  }

  // ---------- state blocks ----------

  lemma RuleRoundTrip(expr: Phrase, act: Phrase, rest: Tokens)
    requires PhraseFits(expr) && PhraseFits(act) && (expr.Nothing? ==> act.Nothing?) && (act.Nothing? ==> Ends(rest))
    ensures ParsedRule((RenderPhrase(expr) + RenderPhrase(act)) + rest)
      == Ok((Rule(ExpressionOf(expr), Action(Always, NOTHING, ExpressionOf(act))), rest))
  {
    var later := RenderPhrase(act) + rest;
    ConcatAssociative(RenderPhrase(expr), RenderPhrase(act), rest);
    if act.Nothing? {
      ConcatEmpty(rest);
    }
    hide ParsedExpression, PhraseFits;
    ExpressionRoundTrip(expr, later);
    ExpressionRoundTrip(act, rest);
  }

  lemma EntryTaken(word: string, ts: Tokens, b: Block)
    ensures ParsedBlock([Word(word)] + ts, b) ==
      match ParsedEntry(word, ts, b)
      case Err(e) => Err(e)
      case Ok((b', after)) => ParsedBlock(after, b')
  {
    hide ParsedEntry;
    Took(Word(word), ts, ENTRY);
  }

  lemma SymbolTaken(s: string, rest: Tokens, b: Block)
    ensures s == "}" ==> ParsedBlock([Sym(s)] + rest, b) == Ok((b, rest))
    ensures s == ";" ==> ParsedBlock([Sym(s)] + rest, b) == ParsedBlock(rest, b)
  {
    hide ParsedEntry;
    Took(Sym(s), rest, ENTRY);
  }

  /** What the parser has collected after some entries. */
  function BlockOf(es: seq<Entry>): Block {
    Block(RulesOf(es), ActionsOf(es), Only(DescsOf(es), ""), DescsOf(es) != [], GoalOf(es))
  }

  lemma Last<T>(s: seq<T>, x: T)
    ensures (s + [x])[..|s + [x]| - 1] == s
  {
  }

  /** What one more entry adds to the meaning. */
  lemma BlockNext(before: seq<Entry>, e: Entry)
    ensures RulesOf(before + [e]) ==
      if e.RuleLine? then
        RulesOf(before) + [Rule(ExpressionOf(e.expr), Action(Always, NOTHING, ExpressionOf(e.act)))]
      else RulesOf(before)
    ensures ActionsOf(before + [e]) ==
      if e.ActionLine? then
        ActionsOf(before) + [Action(if e.otherwise then Else else Always, NOTHING, ExpressionOf(e.act))]
      else if e.ChoiceLine? then
        ActionsOf(before)
        + [Action(if e.choice.IfWord? then If else ElseIf, ExpressionOf(e.expr), ExpressionOf(e.act))]
      else ActionsOf(before)
    ensures DescsOf(before + [e]) == if e.Desc? then DescsOf(before) + [e.text] else DescsOf(before)
    ensures GoalOf(before + [e]) == if e.RuleLine? && e.goal then |RulesOf(before)| else GoalOf(before)
  {
    Last(before, e);
  }

  lemma SemicolonReads(before: seq<Entry>)
    ensures BlockOf(before + [Semicolon]) == BlockOf(before)
  {
    hide RulesOf, ActionsOf, DescsOf, GoalOf;
    BlockNext(before, Semicolon);
  }

  lemma DescRoundTrip(before: seq<Entry>, text: string, rest: Tokens)
    ensures ParsedBlock(RenderEntry(Desc(text)) + rest, BlockOf(before)) ==
      if DescsOf(before) == [] then ParsedBlock(rest, BlockOf(before + [Desc(text)])) else Err(TwoDescs)
  {
    hide ParsedBlock, ParsedRule, ParsedAction, RulesOf, ActionsOf, DescsOf, GoalOf;
    assert RenderEntry(Desc(text)) + rest == [Word("desc")] + ([Quoted(text)] + rest);
    EntryTaken("desc", [Quoted(text)] + rest, BlockOf(before));
    Took(Quoted(text), rest, {String});
    BlockNext(before, Desc(text));
  }

  lemma ActionRoundTrip(before: seq<Entry>, e: Entry, rest: Tokens)
    requires e.ActionLine? && EntryFits(e) && (OpenEnded(e) ==> Ends(rest))
    ensures ParsedBlock(RenderEntry(e) + rest, BlockOf(before)) == ParsedBlock(rest, BlockOf(before + [e]))
  {
    hide ParsedBlock, ParsedExpression, RenderPhrase, RulesOf, ActionsOf, DescsOf, GoalOf;
    var word := if e.otherwise then "else" else "action";
    ConcatAssociative([Word(word)], RenderPhrase(e.act), rest);
    EntryTaken(word, RenderPhrase(e.act) + rest, BlockOf(before));
    ExpressionRoundTrip(e.act, rest);
    BlockNext(before, e);
  }

  lemma RuleLineRoundTrip(before: seq<Entry>, e: Entry, rest: Tokens)
    requires e.RuleLine? && EntryFits(e) && (OpenEnded(e) ==> Ends(rest))
    ensures ParsedBlock(RenderEntry(e) + rest, BlockOf(before)) == ParsedBlock(rest, BlockOf(before + [e]))
  {
    hide ParsedBlock, ParsedRule, RenderPhrase, ParsedAction, RulesOf, ActionsOf, DescsOf, GoalOf;
    var word := if e.goal then "goal" else "rule";
    var both := RenderPhrase(e.expr) + RenderPhrase(e.act);
    ConcatAssociative([Word(word)], both, rest);
    EntryTaken(word, both + rest, BlockOf(before));
    RuleRoundTrip(e.expr, e.act, rest);
    BlockNext(before, e);
  }

  lemma ChoiceRoundTrip(before: seq<Entry>, e: Entry, rest: Tokens)
    requires e.ChoiceLine? && EntryFits(e) && (OpenEnded(e) ==> Ends(rest))
    ensures ParsedBlock(RenderEntry(e) + rest, BlockOf(before)) == ParsedBlock(rest, BlockOf(before + [e]))
  {
    hide ParsedBlock, ParsedRule, RenderPhrase, ParsedAction, RulesOf, ActionsOf, DescsOf, GoalOf;
    var word := ChoiceText(e.choice);
    var both := RenderPhrase(e.expr) + RenderPhrase(e.act);
    ConcatAssociative([Word(word)], both, rest);
    EntryTaken(word, both + rest, BlockOf(before));
    RuleRoundTrip(e.expr, e.act, rest);
    BlockNext(before, e);
  }

  lemma EntryRoundTrip(before: seq<Entry>, e: Entry, rest: Tokens)
    requires EntryFits(e) && (OpenEnded(e) ==> Ends(rest))
    ensures ParsedBlock(RenderEntry(e) + rest, BlockOf(before)) ==
      if e.Desc? && DescsOf(before) != [] then Err(TwoDescs) else ParsedBlock(rest, BlockOf(before + [e]))
  {
    hide ParsedBlock, BlockOf, ParsedEntry, EntryFits, OpenEnded;
    match e
    case Semicolon =>
      SymbolTaken(";", rest, BlockOf(before));
      SemicolonReads(before);
    case Desc(text) => DescRoundTrip(before, text, rest);
    case ActionLine(_, _) => ActionRoundTrip(before, e, rest);
    case RuleLine(_, _, _) => RuleLineRoundTrip(before, e, rest);
    case ChoiceLine(_, _, _) => ChoiceRoundTrip(before, e, rest);
  }

  lemma {:induction false} DescsGrow(es: seq<Entry>, i: nat)
    requires i <= |es|
    ensures |DescsOf(es[..i])| <= |DescsOf(es)|
    decreases |es|
  {
    if i < |es| {
      var before := es[..|es| - 1];
      DescsGrow(before, i);
      assert before[..i] == es[..i];
    } else {
      assert es[..i] == es;
    }
  }

  lemma Rest(es: seq<Entry>, i: nat, close: Tokens)
    requires i < |es|
    ensures RenderEntries(es[i..]) + close == RenderEntry(es[i]) + (RenderEntries(es[i + 1..]) + close)
    ensures es[..i + 1] == es[..i] + [es[i]]
  {
    hide RenderEntry;
    assert es[i..][1..] == es[i + 1..];
    ConcatAssociative(RenderEntry(es[i]), RenderEntries(es[i + 1..]), close);
  }

  lemma RestEnds(es: seq<Entry>, i: nat, close: Tokens)
    requires i < |es| && EntriesFit(es) && OpenEnded(es[i]) && close != [] && close[0].kind == Symbol
    ensures Ends(RenderEntries(es[i + 1..]) + close)
  {
    if i < |es| - 1 {
      assert es[i + 1..][0] == es[i + 1];
    } else {
      ConcatEmpty(close);
    }
  }

  lemma {:induction false} BlockRoundTrip(es: seq<Entry>, i: nat, rest: Tokens)
    requires EntriesFit(es) && i <= |es| && |DescsOf(es[..i])| <= 1
    ensures ParsedBlock(RenderEntries(es[i..]) + ([Sym("}")] + rest), BlockOf(es[..i])) ==
      if |DescsOf(es)| <= 1 then Ok((BlockOf(es), rest)) else Err(TwoDescs)
    decreases |es| - i
  {
    hide ParsedBlock, BlockOf, RenderEntry, EntryFits, OpenEnded, ParsedEntry;
    var close := [Sym("}")] + rest;
    if i == |es| {
      assert es[..i] == es;
      ConcatEmpty(close);
      SymbolTaken("}", rest, BlockOf(es));
    } else {
      var e := es[i];
      var later := RenderEntries(es[i + 1..]) + close;
      Rest(es, i, close);
      if OpenEnded(e) {
        RestEnds(es, i, close);
      }
      EntryRoundTrip(es[..i], e, later);
      Last(es[..i], e);
      DescsGrow(es, i + 1);
      if !(e.Desc? && DescsOf(es[..i]) != []) {
        BlockRoundTrip(es, i + 1, rest);
      }
    }
  }

  /** What a state block reads as behind its keyword. */
  function StateTokens(name: string, es: seq<Entry>): Tokens {
    [Word(name)] + ([Sym("{")] + (RenderEntries(es) + [Sym("}")]))
  }

  lemma StateShape(name: string, es: seq<Entry>, rest: Tokens)
    ensures RenderTop(StateBlock(name, es)) + rest == [Word("state")] + (StateTokens(name, es) + rest)
    ensures StateTokens(name, es) + rest == [Word(name)] + ([Sym("{")] + (RenderEntries(es) + ([Sym("}")] + rest)))
  {
    hide RenderEntries;
    var body, close := RenderEntries(es), [Sym("}")];
    ConcatAssociative(body, close, rest);
    ConcatAssociative([Sym("{")], body + close, rest);
    ConcatAssociative([Word(name)], [Sym("{")] + (body + close), rest);
    var head := [Word("state"), Word(name), Sym("{")];
    ConcatAssociative(head, body + close, rest);
  }

  /**
   A state block keeps everything, whatever the order of its entries and wherever semicolons stand: the name, the
   description, the rules, the actions with their conditions, and the goal. It is refused if and only if it has two
   descriptions.
   */
  lemma StateRoundTrip(name: string, es: seq<Entry>, rest: Tokens)
    requires EntriesFit(es)
    ensures ParsedState(StateTokens(name, es) + rest) ==
      if |DescsOf(es)| <= 1 then Ok((StateOf(name, es), rest)) else Err(TwoDescs)
  {
    hide ParsedBlock, RenderEntries, EntriesFit;
    var block := RenderEntries(es) + ([Sym("}")] + rest);
    StateShape(name, es, rest);
    Took(Word(name), [Sym("{")] + block, {Identifier});
    Took(Sym("{"), block, {Symbol});
    assert es[0..] == es && es[..0] == [];
    BlockRoundTrip(es, 0, rest);
  }

  // ---------- the main block ----------

  lemma MainTaken(word: string, ts: Tokens, m: Main)
    ensures ParsedMain([Word(word)] + ts, m) ==
      match ParsedMainEntry(word, ts, m)
      case Err(e) => Err(e)
      case Ok((m', after)) => ParsedMain(after, m')
  {
    hide ParsedMainEntry;
    Took(Word(word), ts, ENTRY);
  }

  lemma MainCloses(rest: Tokens, m: Main)
    ensures ParsedMain([Sym("}")] + rest, m) == Ok((m.info, rest))
  {
    hide ParsedMainEntry;
    Took(Sym("}"), rest, ENTRY);
  }

  /** Behind an entry of a main block. */
  predicate MainEnds(rest: Tokens) {
    rest != [] && rest[0].newlines == 0 && (rest[0].kind == Identifier || rest[0] == Sym("}"))
  }

  /** The minor number may be left out. */
  lemma VersionRoundTrip(e: MainEntry, rest: Tokens)
    requires e.VersionLine? && MainEnds(rest)
    ensures ParsedVersion([Numeral(e.major)] + (RenderMinor(e.minor) + rest)) == Ok((VersionOf(e), rest))
  {
    Took(Numeral(e.major), RenderMinor(e.minor) + rest, {Integer});
    if e.minor.NoMinor? {
      ConcatEmpty(rest);
      assert rest == [rest[0]] + rest[1..];
    } else {
      var minor := [Numeral(e.minor.n)] + rest;
      assert RenderMinor(e.minor) + rest == [Sym(".")] + minor;
      Took(Sym("."), minor, {Symbol});
      Took(Numeral(e.minor.n), rest, {Integer});
    }
  }

  /** What the parser has collected after some entries. */
  function MainOf(es: seq<MainEntry>): Main {
    Main(InfoOf(es), NamesOf(es) != [], VersionsOf(es) != [])
  }

  /** The error of an attribute that comes twice. */
  function Twice(e: MainEntry): Error {
    match e
    case NameLine(_) => TwoNames
    case VersionLine(_, _) => TwoVersions
    case HiddenLine(_) => TwoHidden
    case DisabledLine => TwoDisabled
  }

  lemma NameReads(before: seq<MainEntry>, e: MainEntry, rest: Tokens)
    requires Once(before) && e.NameLine?
    ensures ParsedMain(RenderMainEntry(e) + rest, MainOf(before)) ==
      if Once(before + [e]) then ParsedMain(rest, MainOf(before + [e])) else Err(TwoNames)
  {
    hide ParsedMain, ParsedVersion;
    assert RenderMainEntry(e) + rest == [Word("questname")] + ([Quoted(e.name)] + rest);
    MainTaken("questname", [Quoted(e.name)] + rest, MainOf(before));
    Took(Quoted(e.name), rest, {String});
    Last(before, e);
  }

  lemma VersionReads(before: seq<MainEntry>, e: MainEntry, rest: Tokens)
    requires Once(before) && e.VersionLine? && MainEnds(rest)
    ensures ParsedMain(RenderMainEntry(e) + rest, MainOf(before)) ==
      if Once(before + [e]) then ParsedMain(rest, MainOf(before + [e])) else Err(TwoVersions)
  {
    hide ParsedMain, ParsedVersion, ParsedText, RenderMinor;
    var version := [Numeral(e.major)] + (RenderMinor(e.minor) + rest);
    assert RenderMainEntry(e) + rest == [Word("version")] + version;
    MainTaken("version", version, MainOf(before));
    VersionRoundTrip(e, rest);
    Last(before, e);
  }

  lemma {:induction false} HiddenKinds(es: seq<MainEntry>)
    ensures NotHidden !in HiddensOf(es)
  {
    if es != [] {
      HiddenKinds(es[..|es| - 1]);
    }
  }

  lemma FlagReads(before: seq<MainEntry>, e: MainEntry, rest: Tokens)
    requires Once(before) && (e.HiddenLine? || e.DisabledLine?)
    ensures ParsedMain(RenderMainEntry(e) + rest, MainOf(before)) ==
      if Once(before + [e]) then ParsedMain(rest, MainOf(before + [e])) else Err(Twice(e))
  {
    hide ParsedMain, ParsedVersion, ParsedText;
    var word := if e.DisabledLine? then "disabled" else if e.atEnd then "hidden_end" else "hidden";
    assert RenderMainEntry(e) == [Word(word)];
    MainTaken(word, rest, MainOf(before));
    HiddenKinds(before);
    Last(before, e);
  }

  lemma MainEntryReads(before: seq<MainEntry>, e: MainEntry, rest: Tokens)
    requires Once(before) && MainEnds(rest)
    ensures ParsedMain(RenderMainEntry(e) + rest, MainOf(before)) ==
      if Once(before + [e]) then ParsedMain(rest, MainOf(before + [e])) else Err(Twice(e))
  {
    hide ParsedMain, Once, MainOf, RenderMainEntry, MainEnds;
    match e
    case NameLine(_) => NameReads(before, e, rest);
    case VersionLine(_, _) => VersionReads(before, e, rest);
    case HiddenLine(_) => FlagReads(before, e, rest);
    case DisabledLine => FlagReads(before, e, rest);
  }

  lemma {:induction false} CountsGrow(es: seq<MainEntry>, i: nat)
    requires i <= |es|
    ensures |NamesOf(es[..i])| <= |NamesOf(es)| && |VersionsOf(es[..i])| <= |VersionsOf(es)|
    ensures |HiddensOf(es[..i])| <= |HiddensOf(es)| && DisabledsOf(es[..i]) <= DisabledsOf(es)
    decreases |es|
  {
    if i < |es| {
      var before := es[..|es| - 1];
      CountsGrow(before, i);
      assert before[..i] == es[..i];
    } else {
      assert es[..i] == es;
    }
  }

  lemma MainRest(es: seq<MainEntry>, i: nat, rest: Tokens)
    requires i < |es|
    ensures
      var later := RenderMain(es[i + 1..]) + ([Sym("}")] + rest);
      && RenderMain(es[i..]) + ([Sym("}")] + rest) == RenderMainEntry(es[i]) + later
      && MainEnds(later)
    ensures es[..i + 1] == es[..i] + [es[i]]
  {
    var close := [Sym("}")] + rest;
    assert es[i..][1..] == es[i + 1..];
    ConcatAssociative(RenderMainEntry(es[i]), RenderMain(es[i + 1..]), close);
    if i + 1 == |es| {
      ConcatEmpty(close);
    } else {
      assert RenderMainEntry(es[i + 1..][0])[0].kind == Identifier;
    }
  }

  /** The error names an attribute that does come twice. */
  predicate MainFault(es: seq<MainEntry>, e: Error) {
    || (e == TwoNames && |NamesOf(es)| > 1)
    || (e == TwoVersions && |VersionsOf(es)| > 1)
    || (e == TwoHidden && |HiddensOf(es)| > 1)
    || (e == TwoDisabled && DisabledsOf(es) > 1)
  }

  lemma FaultFound(es: seq<MainEntry>, i: nat)
    requires i < |es| && Once(es[..i]) && !Once(es[..i + 1])
    ensures MainFault(es, Twice(es[i])) && !Once(es)
  {
    var upto := es[..i + 1];
    assert upto[..i] == es[..i];
    CountsGrow(es, i + 1);
  }

  lemma {:induction false} MainRoundTrip(es: seq<MainEntry>, i: nat, rest: Tokens)
    requires i <= |es| && Once(es[..i])
    ensures
      var r := ParsedMain(RenderMain(es[i..]) + ([Sym("}")] + rest), MainOf(es[..i]));
      if Once(es) then r == Ok((InfoOf(es), rest)) else r.Err? && MainFault(es, r.error)
    decreases |es| - i
  {
    hide ParsedMain, Once, MainFault, Twice, InfoOf, NamesOf, VersionsOf, RenderMainEntry;
    if i == |es| {
      assert es[..i] == es;
      ConcatEmpty([Sym("}")] + rest);
      MainCloses(rest, MainOf(es));
    } else {
      MainRest(es, i, rest);
      MainEntryReads(es[..i], es[i], RenderMain(es[i + 1..]) + ([Sym("}")] + rest));
      if Once(es[..i + 1]) {
        MainRoundTrip(es, i + 1, rest);
      } else {
        FaultFound(es, i);
      }
    }
  }

  /** What a main block reads as behind its keyword. */
  function InfoTokens(es: seq<MainEntry>): Tokens {
    [Sym("{")] + (RenderMain(es) + [Sym("}")])
  }

  lemma InfoShape(es: seq<MainEntry>, rest: Tokens)
    ensures RenderTop(MainBlock(es)) + rest == [Word("main")] + (InfoTokens(es) + rest)
    ensures InfoTokens(es) + rest == [Sym("{")] + (RenderMain(es) + ([Sym("}")] + rest))
  {
    hide RenderMain;
    var body, close := RenderMain(es), [Sym("}")];
    ConcatAssociative(body, close, rest);
    ConcatAssociative([Sym("{")], body + close, rest);
    ConcatAssociative([Word("main"), Sym("{")], body + close, rest);
  }

  /**
   A main block keeps the name, the version with or without a minor number, and both flags, in whatever order they
   are written; it is refused if and only if one of them comes twice, and the error says which.
   */
  lemma InfoRoundTrip(es: seq<MainEntry>, rest: Tokens)
    ensures
      var r := ParsedMainBlock(InfoTokens(es) + rest);
      if Once(es) then r == Ok((InfoOf(es), rest)) else r.Err? && MainFault(es, r.error)
  {
    hide ParsedMain, RenderMain, MainFault;
    InfoShape(es, rest);
    Took(Sym("{"), RenderMain(es) + ([Sym("}")] + rest), {Symbol});
    assert es[0..] == es && es[..0] == [];
    MainRoundTrip(es, 0, rest);
  }

  // ---------- quests ----------

  function ByName(ss: seq<State>): map<string, State> {
    if ss == [] then map[] else ByName(ss[..|ss| - 1])[ss[|ss| - 1].name := ss[|ss| - 1]]
  }

  lemma {:induction false} ByNameExact(ss: seq<State>)
    ensures ByName(ss).Keys == set k | 0 <= k < |ss| :: ss[k].name
    ensures Distinct(ss) ==> forall k :: 0 <= k < |ss| ==> ByName(ss)[ss[k].name] == ss[k]
  {
    if ss != [] {
      var n := |ss| - 1;
      var before := ss[..n];
      ByNameExact(before);
      assert forall k :: 0 <= k < n ==> before[k] == ss[k];
      forall k | 0 <= k < |ss| && Distinct(ss) ensures ByName(ss)[ss[k].name] == ss[k] {
        if k < n {
          assert before[k] == ss[k] && ss[k].name != ss[n].name;
        }
      }
    }
  }

  /** The quest after some blocks. */
  function SoFar(bs: seq<TopBlock>): Quest {
    Quest(MainsOf(bs) != [], Only(MainsOf(bs), NO_INFO), ByName(StatesOf(bs)))
  }

  /** Nothing is wrong yet. */
  predicate Partial(bs: seq<TopBlock>) {
    && (forall i :: 0 <= i < |bs| ==> TopSound(bs[i]))
    && |MainsOf(bs)| <= 1
    && Distinct(StatesOf(bs))
  }

  /** What can be wrong with one more block. */
  predicate TopFault(before: seq<TopBlock>, b: TopBlock, e: Error) {
    match b
    case MainBlock(lines) => (e == TwoMains && MainsOf(before) != []) || MainFault(lines, e)
    case StateBlock(name, entries) =>
      || (e == TwoDescs && |DescsOf(entries)| > 1)
      || (e == TwoStates && exists k :: 0 <= k < |StatesOf(before)| && StatesOf(before)[k].name == name)
  }

  lemma TopNext(before: seq<TopBlock>, b: TopBlock)
    ensures MainsOf(before + [b]) == if b.MainBlock? then MainsOf(before) + [InfoOf(b.lines)] else MainsOf(before)
    ensures StatesOf(before + [b])
      == if b.StateBlock? then StatesOf(before) + [StateOf(b.name, b.entries)] else StatesOf(before)
  {
    Last(before, b);
  }

  lemma DistinctNext(ss: seq<State>, s: State)
    requires Distinct(ss)
    ensures Distinct(ss + [s]) <==> s.name !in ByName(ss)
    ensures s.name in ByName(ss) <==> exists k :: 0 <= k < |ss| && ss[k].name == s.name
    ensures ByName(ss + [s]) == ByName(ss)[s.name := s]
  {
    Last(ss, s);
    ByNameExact(ss);
    var more := ss + [s];
    if s.name in ByName(ss) {
      var k :| 0 <= k < |ss| && ss[k].name == s.name;
      assert more[k].name == more[|ss|].name;
    }
  }

  lemma TopTaken(word: string, ts: Tokens, q: Quest)
    ensures ParsedQuest([Word(word)] + ts, q) ==
      match ParsedTop(word, ts, q)
      case Err(e) => Err(e)
      case Ok((q', after)) => ParsedQuest(after, q')
  {
    hide ParsedTop;
    Took(Word(word), ts, TOP);
  }

  lemma PartialNext(before: seq<TopBlock>, b: TopBlock)
    requires Partial(before)
    ensures Partial(before + [b]) <==>
      TopSound(b) && |MainsOf(before + [b])| <= 1 && Distinct(StatesOf(before + [b]))
  {
    var all := before + [b];
    assert all[|before|] == b;
    assert forall i :: 0 <= i < |before| ==> all[i] == before[i];
  }

  lemma MainReads(before: seq<TopBlock>, b: TopBlock, rest: Tokens)
    requires Partial(before) && b.MainBlock?
    ensures
      var r := ParsedQuest(RenderTop(b) + rest, SoFar(before));
      if Partial(before + [b]) then r == ParsedQuest(rest, SoFar(before + [b]))
      else r.Err? && TopFault(before, b, r.error)
  {
    hide ParsedQuest, ParsedMainBlock, InfoTokens, MainFault, Once, InfoOf, RenderTop, ParsedState, MainsOf, StatesOf;
    PartialNext(before, b);
    TopNext(before, b);
    InfoShape(b.lines, rest);
    TopTaken("main", InfoTokens(b.lines) + rest, SoFar(before));
    InfoRoundTrip(b.lines, rest);
  }

  lemma StateReads(before: seq<TopBlock>, b: TopBlock, rest: Tokens)
    requires Partial(before) && b.StateBlock? && TopFits(b)
    ensures
      var r := ParsedQuest(RenderTop(b) + rest, SoFar(before));
      if Partial(before + [b]) then r == ParsedQuest(rest, SoFar(before + [b]))
      else r.Err? && TopFault(before, b, r.error)
  {
    hide ParsedQuest, ParsedMainBlock, StateTokens, EntriesFit, RenderTop, ParsedState, MainsOf, StatesOf, ByName,
      DescsOf, RulesOf, ActionsOf, GoalOf, Distinct;
    PartialNext(before, b);
    TopNext(before, b);
    StateShape(b.name, b.entries, rest);
    TopTaken("state", StateTokens(b.name, b.entries) + rest, SoFar(before));
    StateRoundTrip(b.name, b.entries, rest);
    DistinctNext(StatesOf(before), StateOf(b.name, b.entries));
  }

  lemma {:induction false} TopsGrow(bs: seq<TopBlock>, i: nat)
    requires i <= |bs|
    ensures MainsOf(bs[..i]) <= MainsOf(bs) && StatesOf(bs[..i]) <= StatesOf(bs)
    decreases |bs|
  {
    if i < |bs| {
      var before := bs[..|bs| - 1];
      TopsGrow(before, i);
      assert before[..i] == bs[..i];
    } else {
      assert bs[..i] == bs;
    }
  }

  /** The error names something that is wrong. */
  predicate Fault(bs: seq<TopBlock>, e: Error) {
    || (e == NoMain && MainsOf(bs) == [])
    || (e == TwoMains && |MainsOf(bs)| > 1)
    || (e == TwoStates && !Distinct(StatesOf(bs)))
    || (e == TwoDescs && exists i :: 0 <= i < |bs| && bs[i].StateBlock? && |DescsOf(bs[i].entries)| > 1)
    || (exists i :: 0 <= i < |bs| && bs[i].MainBlock? && MainFault(bs[i].lines, e))
  }

  lemma MainFaultIsOne(es: seq<MainEntry>, e: Error)
    requires MainFault(es, e)
    ensures !Once(es) && e != TwoMains && e != TwoStates && e != TwoDescs
  {
  }

  lemma FaultStays(bs: seq<TopBlock>, i: nat, e: Error)
    requires i < |bs| && TopFault(bs[..i], bs[i], e)
    ensures Fault(bs, e) && !QuestSound(bs)
  {
    hide MainsOf, StatesOf, DescsOf, Once, MainFault;
    var before, b := bs[..i], bs[i];
    assert bs[..i + 1] == before + [b];
    TopNext(before, b);
    TopsGrow(bs, i + 1);
    if b.MainBlock? {
      if MainFault(b.lines, e) {
        MainFaultIsOne(b.lines, e);
        assert !TopSound(b);
      }
    } else if e == TwoDescs {
      assert !TopSound(b);
    } else {
      var ss := StatesOf(before);
      var k :| 0 <= k < |ss| && ss[k].name == b.name;
      assert StatesOf(bs)[k].name == StatesOf(bs)[|ss|].name;
    }
  }

  lemma TopsRest(bs: seq<TopBlock>, i: nat, close: Tokens)
    requires i < |bs|
    ensures RenderTops(bs[i..]) + close == RenderTop(bs[i]) + (RenderTops(bs[i + 1..]) + close)
    ensures bs[..i + 1] == bs[..i] + [bs[i]]
  {
    hide RenderTop;
    assert bs[i..][1..] == bs[i + 1..];
    ConcatAssociative(RenderTop(bs[i]), RenderTops(bs[i + 1..]), close);
  }

  lemma {:induction false} TopsRoundTrip(bs: seq<TopBlock>, i: nat, tail: Tokens)
    requires i <= |bs| && Partial(bs[..i]) && (forall k :: 0 <= k < |bs| ==> TopFits(bs[k]))
    ensures
      var r := ParsedQuest(RenderTops(bs[i..]) + ([END] + tail), SoFar(bs[..i]));
      if QuestSound(bs) then r == Ok(SoFar(bs)) else r.Err? && Fault(bs, r.error)
    decreases |bs| - i
  {
    hide ParsedTop, TopFits, RenderTop, ByName, Distinct, TopSound, TopFault;
    var close := [END] + tail;
    if i == |bs| {
      assert bs[..i] == bs;
      ConcatEmpty(close);
      Took(END, tail, TOP);
    } else {
      hide ParsedQuest, RenderTops, Fault, QuestSound, Partial, SoFar;
      var b := bs[i];
      var later := RenderTops(bs[i + 1..]) + close;
      TopsRest(bs, i, close);
      if b.MainBlock? {
        MainReads(bs[..i], b, later);
      } else {
        StateReads(bs[..i], b, later);
      }
      if Partial(bs[..i + 1]) {
        TopsRoundTrip(bs, i + 1, tail);
      } else {
        FaultStays(bs, i, ParsedQuest(RenderTop(b) + later, SoFar(bs[..i])).error);
      }
    }
  }

  /**
   The parser inverts the spelling: blocks in any order read back as the quest they mean if and only if there is
   exactly one main block, no two states share a name, and no block says anything twice; otherwise the quest is
   refused, with an error that names something that is wrong.
   */
  lemma QuestRoundTrip(bs: seq<TopBlock>, ts: Tokens, tail: Tokens)
    requires Spells(bs, ts, tail)
    ensures
      var r := ParsedQuest(ts, NO_QUEST);
      if QuestSound(bs) then r.Ok? && IsQuest(r.value, bs) else r.Err? && Fault(bs, r.error)
  {
    hide ParsedQuest, RenderTops, TopFits, TopSound, Fault;
    assert bs[0..] == bs && bs[..0] == [];
    TopsRoundTrip(bs, 0, tail);
    ByNameExact(StatesOf(bs));
  }
}
