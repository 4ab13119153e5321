/** The recursive-descent parser of src/eoplus/parse.cpp, reading from the token server. */
module QuestReader {
  import opened Bytes
  import QuestGrammar
  import opened QuestParser
  import opened QuestTokens

  /** The result of a parsing function, from that of a method and the tokens it left. */
  ghost function Left<T>(r: Result<T>, rest: Tokens): Result<(T, Tokens)> {
    match r
    case Ok(v) => Ok((v, rest))
    case Err(e) => Err(e)
  }

  class Parser {
    const tok: TokenServer
    var quest: Quest

    ghost predicate Valid()
      reads tok
    {
      tok.Valid() && tok.Reported()
    }

    /** The current line plus the lines still to come. */
    ghost function Lines(): int
      requires Valid()
      reads tok
    {
      tok.Total()
    }

    ghost function Visible(): Tokens
      requires Valid()
      reads tok
    {
      tok.Visible()
    }

    constructor (quest: Quest, input: seq<Token>)
      ensures Valid() && fresh(tok) && this.quest == quest
      ensures Visible() == Content(input) && Lines() == 1 + QuestTokens.Lines(input)
    {
      this.quest := quest;
      tok := new TokenServer(input);
    }

    method GetToken(allow: set<Kind>) returns (ok: bool, t: Token)
      requires Valid() && NewLine !in allow
      modifies tok
      ensures Valid() && Lines() == old(Lines()) && (Plain(t), Visible()) == Got(old(Visible()), allow)
      ensures ok == (t.kind != Invalid) && t.newlines >= 0
    {
      t := tok.GetToken(allow);
      ok := t.kind != Invalid;
    }

    method GetTokenIf(f: Token -> bool, allow: set<Kind>) returns (ok: bool, t: Token)
      requires Valid() && NewLine !in allow && (forall t :: f(t) == f(Plain(t)))
      modifies tok
      ensures Valid() && Lines() == old(Lines()) && (Plain(t), Visible()) == GotIf(old(Visible()), allow, f)
      ensures ok == (t.kind != Invalid)
    {
      t := tok.GetToken(allow);
      if t.kind != Invalid && !f(t) {
        tok.PutBack(t);
        t := NONE;
      }
      ok := t.kind != Invalid;
    }

    method ParseMinor() returns (r: Result<nat>)
      requires Valid()
      modifies tok
      ensures Valid() && Lines() == old(Lines()) && ParsedMinor(old(Visible())) == Left(r, Visible())
    {
      var ok, t := GetTokenIf(IsSymbol("."), {Symbol});
      if !ok {
        return Ok(0);
      }
      ok, t := GetToken({Integer});
      if ok {
        return Ok(AsInt(t) % 65536);
      }
      return Err(ExpectedMinor);
    }

    method ParseVersion() returns (r: Result<nat>)
      requires Valid()
      modifies tok
      ensures Valid() && Lines() == old(Lines()) && ParsedVersion(old(Visible())) == Left(r, Visible())
    {
      hide ParsedMinor;
      var ok, t := GetToken({Integer});
      if !ok {
        return Err(ExpectedVersion);
      }
      var version := AsInt(t) % 65536 * 65536;
      var minor := ParseMinor();
      if minor.Err? {
        return Err(minor.error);
      }
      return Ok(version + minor.value);
    }

    method ParseScopes() returns (r: Result<seq<Scope>>)
      requires Valid()
      modifies tok
      ensures Valid() && Lines() == old(Lines()) && ParsedScopes(old(Visible()), []) == Left(r, Visible())
    {
      var scopes := [];
      while true
        invariant Valid() && Lines() == old(Lines())
        invariant ParsedScopes(Visible(), scopes) == ParsedScopes(old(Visible()), [])
        decreases |Visible()|
      {
        var ok, t := GetToken({Identifier});
        if !ok {
          break;
        }
        var found := ScopeOf(AsText(t));
        if found == [] {
          tok.PutBack(t);
          return Ok(scopes);
        }
        scopes := scopes + found;
        ok, t := GetTokenIf(IsSymbol("."), {Symbol});
        if !ok {
          return Err(ExpectedDot);
        }
      }
      return Ok(scopes);
    }

    /** The loop over the arguments of a call, after its opening parenthesis. */
    method ParseArgs() returns (r: Result<seq<Data>>)
      requires Valid()
      modifies tok
      ensures Valid() && Lines() == old(Lines()) && ParsedArgs(old(Visible()), []) == Left(r, Visible())
    {
      var args := [];
      while true
        invariant Valid() && Lines() == old(Lines()) && ParsedArgs(Visible(), args) == ParsedArgs(old(Visible()), [])
        decreases |Visible()|
      {
        var ok, t := GetToken(ARGUMENT);
        if !ok {
          break;
        }
        args := args + [t.data];
        ok, t := GetTokenIf(IsCommaOrClose(), {Symbol, Operator});
        if !ok {
          return Err(ExpectedComma);
        }
        if AsInt(t) == CLOSE {
          return Ok(args);
        }
      }
      return Err(ExpectedArgument);
    }

    method ParseExpression() returns (r: Result<Expression>)
      requires Valid()
      modifies tok
      ensures Valid() && Lines() == old(Lines()) && ParsedExpression(old(Visible())) == Left(r, Visible())
    {
      hide ParsedScopes, ParsedArgs;
      var ok, t := GetToken({Identifier});
      if !ok {
        return Ok(NOTHING);
      }
      if AsText(t) == "goto" {
        var tt;
        ok, tt := GetToken({Identifier});
        if ok {
          return Ok(Expression([], "setstate", [Text(AsText(tt))]));
        }
        return Err(ExpectedGotoTarget);
      }
      var scopes := ParseScopes();
      if scopes.Err? {
        return Err(scopes.error);
      }
      r := ParseCall(scopes.value, AsText(t));
    }

    /** The parenthesised rest of a call. */
    method ParseCall(scopes: seq<Scope>, f: string) returns (r: Result<Expression>)
      requires Valid()
      modifies tok
      ensures Valid() && Lines() == old(Lines()) && ParsedCall(old(Visible()), scopes, f) == Left(r, Visible())
    {
      hide ParsedArgs;
      var ok, t := GetTokenIf(IsOperator(OPEN), {Operator});
      if !ok {
        return Err(ExpectedOpen);
      }
      ok, t := GetTokenIf(IsOperator(CLOSE), {Operator});
      if ok {
        return Ok(Expression(scopes, f, []));
      }
      var args := ParseArgs();
      if args.Err? {
        return Err(args.error);
      }
      return Ok(Expression(scopes, f, args.value));
    }

    method ParseQuestName() returns (r: Result<string>)
      requires Valid()
      modifies tok
      ensures Valid() && Lines() == old(Lines()) && ParsedText(old(Visible()), ExpectedQuestName) == Left(r, Visible())
    {
      var ok, t := GetToken({String});
      if ok {
        return Ok(AsText(t));
      }
      return Err(ExpectedQuestName);
    }

    method ParseDesc() returns (r: Result<string>)
      requires Valid()
      modifies tok
      ensures Valid() && Lines() == old(Lines()) && ParsedText(old(Visible()), ExpectedDesc) == Left(r, Visible())
    {
      var ok, t := GetToken({String});
      if ok {
        return Ok(AsText(t));
      }
      return Err(ExpectedDesc);
    }

    method ParseAction() returns (r: Result<Action>)
      requires Valid()
      modifies tok
      ensures Valid() && Lines() == old(Lines()) && ParsedAction(old(Visible())) == Left(r, Visible())
    {
      var expr := ParseExpression();
      if expr.Err? {
        return Err(expr.error);
      }
      return Ok(Action(Always, NOTHING, expr.value));
    }

    method ParseRule() returns (r: Result<Rule>)
      requires Valid()
      modifies tok
      ensures Valid() && Lines() == old(Lines()) && ParsedRule(old(Visible())) == Left(r, Visible())
    {
      hide ParsedExpression, ParsedAction;
      var expr := ParseExpression();
      if expr.Err? {
        return Err(expr.error);
      }
      var action := ParseAction();
      if action.Err? {
        return Err(action.error);
      }
      return Ok(Rule(expr.value, action.value));
    }

    /** One entry of a state block; the handler for goals and descriptions is the second half. */
    method ParseEntry(word: string, b0: Block) returns (r: Result<Block>)
      requires Valid()
      modifies tok
      ensures Valid() && Lines() == old(Lines()) && ParsedEntry(word, old(Visible()), b0) == Left(r, Visible())
    {
      hide ParsedAction, ParsedRule, ParsedText;
      var b := b0;
      if word == "action" || word == "else" {
        var action := ParseAction();
        if action.Err? {
          return Err(action.error);
        }
        b := b.(actions := b.actions + [if word == "else" then action.value.(cond := Else) else action.value]);
      } else if word == "rule" || word == "goal" || word == "if" || word == "elseif" || word == "elif" {
        var rule := ParseRule();
        if rule.Err? {
          return Err(rule.error);
        }
        if word == "rule" || word == "goal" {
          b := b.(rules := b.rules + [rule.value]);
          if word == "goal" {
            b := b.(goal := |b.rules| - 1);
          }
        } else {
          var cond := if word == "if" then If else ElseIf;
          b := b.(actions := b.actions + [Action(cond, rule.value.expr, rule.value.action.expr)]);
        }
      } else if word == "desc" {
        if b.hasDesc {
          return Err(TwoDescs);
        }
        b := b.(hasDesc := true);
        var desc := ParseDesc();
        if desc.Err? {
          return Err(desc.error);
        }
        b := b.(desc := desc.value);
      } else {
        return Err(ExpectedEntry);
      }
      return Ok(b);
    }

    method ParseRuleActionBlock() returns (r: Result<Block>)
      requires Valid()
      modifies tok
      ensures Valid() && Lines() == old(Lines()) && ParsedBlock(old(Visible()), NO_BLOCK) == Left(r, Visible())
    {
      hide ParsedEntry;
      var b := NO_BLOCK;
      while true
        invariant Valid() && Lines() == old(Lines())
        invariant ParsedBlock(Visible(), b) == ParsedBlock(old(Visible()), NO_BLOCK)
        decreases |Visible()|
      {
        var ok, t := GetToken(ENTRY);
        if !ok {
          break;
        }
        if t.kind == Identifier {
          var entry := ParseEntry(AsText(t), b);
          if entry.Err? {
            return Err(entry.error);
          }
          b := entry.value;
        } else if AsText(t) == "}" {
          return Ok(b);
        } else if AsText(t) != ";" {
          tok.PutBack(t);
          break;
        }
      }
      return Err(ExpectedEntry);
    }

    method ParseMainEntry(word: string, m0: Main) returns (r: Result<Main>)
      requires Valid()
      modifies tok
      ensures Valid() && Lines() == old(Lines()) && ParsedMainEntry(word, old(Visible()), m0) == Left(r, Visible())
    {
      hide ParsedText, ParsedVersion;
      var m := m0;
      if word == "questname" {
        if m.hasName {
          return Err(TwoNames);
        }
        m := m.(hasName := true);
        var name := ParseQuestName();
        if name.Err? {
          return Err(name.error);
        }
        m := m.(info := m.info.(name := name.value));
      } else if word == "version" {
        if m.hasVersion {
          return Err(TwoVersions);
        }
        m := m.(hasVersion := true);
        var version := ParseVersion();
        if version.Err? {
          return Err(version.error);
        }
        m := m.(info := m.info.(version := version.value));
      } else if word == "hidden" || word == "hidden_end" {
        if m.info.hidden != NotHidden {
          return Err(TwoHidden);
        }
        m := m.(info := m.info.(hidden := if word == "hidden" then IsHidden else HiddenEnd));
      } else if word == "disabled" {
        if m.info.disabled {
          return Err(TwoDisabled);
        }
        m := m.(info := m.info.(disabled := true));
      } else {
        return Err(ExpectedMainEntry);
      }
      return Ok(m);
    }

    method ParseMain() returns (r: Result<Info>)
      requires Valid()
      modifies tok
      ensures Valid() && Lines() == old(Lines()) && ParsedMain(old(Visible()), NO_MAIN) == Left(r, Visible())
    {
      hide ParsedMainEntry;
      var m := NO_MAIN;
      while true
        invariant Valid() && Lines() == old(Lines()) && ParsedMain(Visible(), m) == ParsedMain(old(Visible()), NO_MAIN)
        decreases |Visible()|
      {
        var ok, t := GetToken(ENTRY);
        if !ok {
          break;
        }
        if t.kind == Identifier {
          var entry := ParseMainEntry(AsText(t), m);
          if entry.Err? {
            return Err(entry.error);
          }
          m := entry.value;
        } else if AsText(t) == "}" {
          return Ok(m.info);
        } else {
          break;
        }
      }
      return Err(ExpectedMainEntry);
    }

    method ParseMainBlock() returns (r: Result<Info>)
      requires Valid()
      modifies tok
      ensures Valid() && Lines() == old(Lines()) && ParsedMainBlock(old(Visible())) == Left(r, Visible())
    {
      hide ParsedMain;
      var ok, t := GetToken({Symbol});
      if ok && AsText(t) == "{" {
        r := ParseMain();
      } else {
        r := Err(ExpectedMainBrace);
      }
    }

    method ParseStateBlock() returns (r: Result<State>)
      requires Valid()
      modifies tok
      ensures Valid() && Lines() == old(Lines()) && ParsedState(old(Visible())) == Left(r, Visible())
    {
      hide ParsedBlock;
      var ok, name := GetToken({Identifier});
      if !ok {
        return Err(ExpectedStateName);
      }
      var t;
      ok, t := GetToken({Symbol});
      if !ok || AsText(t) != "{" {
        return Err(ExpectedBrace);
      }
      var block := ParseRuleActionBlock();
      if block.Err? {
        return Err(block.error);
      }
      var b := block.value;
      return Ok(State(AsText(name), b.desc, b.rules, b.actions, b.goal));
    }

    /** One main or state block whose keyword has been taken. */
    method ParseTopBlock(word: string) returns (r: Result<()>)
      requires Valid()
      modifies this`quest, tok
      ensures Valid() && Lines() == old(Lines())
      ensures ParsedTop(word, old(Visible()), old(quest))
        == (if r.Ok? then Ok((quest, Visible())) else Err(r.error))
    {
      hide ParsedState, ParsedMainBlock;
      if word == "main" {
        if quest.hasInfo {
          return Err(TwoMains);
        }
        var info := ParseMainBlock();
        if info.Err? {
          return Err(info.error);
        }
        quest := quest.(info := info.value, hasInfo := true);
      } else if word == "state" {
        var state := ParseStateBlock();
        if state.Err? {
          return Err(state.error);
        }
        if state.value.name in quest.states {
          return Err(TwoStates);
        }
        quest := quest.(states := quest.states[state.value.name := state.value]);
      } else {
        return Err(ExpectedBlock);
      }
      return Ok(());
    }

    method ParseGlobal() returns (r: Result<()>)
      requires Valid()
      modifies this`quest, tok
      ensures Valid() && Lines() == old(Lines())
      ensures ParsedQuest(old(Visible()), old(quest)) == (if r.Ok? then Ok(quest) else Err(r.error))
    {
      hide ParsedTop;
      while true
        invariant Valid() && Lines() == old(Lines())
        invariant ParsedQuest(Visible(), quest) == ParsedQuest(old(Visible()), old(quest))
        decreases |Visible()|
      {
        var ok, t := GetToken(TOP);
        if !ok {
          break;
        }
        if t.kind == Identifier {
          var block := ParseTopBlock(AsText(t));
          if block.Err? {
            return Err(block.error);
          }
        } else {
          if !quest.hasInfo {
            return Err(NoMain);
          }
          return Ok(());
        }
      }
      return Err(ExpectedBlock);
    }
  }

  /**
   Reads a whole token list: what comes out depends only on the tokens that are not newlines, a list is accepted if
   and only if it spells a sound quest, and the line an error would name is no further than the last.
   */
  method ReadQuest(input: seq<Token>) returns (r: Result<Quest>, line: int)
    ensures r == ParsedQuest(Content(input), NO_QUEST)
    ensures QuestGrammar.Lexed(Content(input)) ==> (r.Ok? <==> QuestGrammar.QuestText(Content(input)))
    ensures line <= 1 + Lines(input)
  {
    hide ParsedQuest, QuestGrammar.QuestText, QuestGrammar.Lexed, Content, Lines;
    if QuestGrammar.Lexed(Content(input)) {
      QuestGrammar.AcceptedIff(Content(input));
    }
    var parser := new Parser(NO_QUEST, input);
    var done := parser.ParseGlobal();
    r := if done.Ok? then Ok(parser.quest) else Err(done.error);
    line := if parser.tok.line < parser.tok.rejectLine then parser.tok.rejectLine else parser.tok.line;
  }

  lemma FirstContent(t: Token, ts: seq<Token>)
    ensures Content([t] + ts) == (if t.kind == NewLine then [] else [Plain(t)]) + Content(ts)
  {
    assert ([t] + ts)[1..] == ts;
  }

  lemma {:induction false} ContentAppend(a: seq<Token>, b: seq<Token>)
    ensures Content(a + b) == Content(a) + Content(b)
  {
    if a == [] {
      ConcatEmpty(b);
      ConcatEmpty(Content(b));
    } else {
      ContentAppend(a[1..], b);
      FirstContent(a[0], a[1..] + b);
      FirstContent(a[0], a[1..]);
      hide Content;
      assert a == [a[0]] + a[1..];
      ConcatAssociative([a[0]], a[1..], b);
      ConcatAssociative(if a[0].kind == NewLine then [] else [Plain(a[0])], Content(a[1..]), Content(b));
    }
  }

  /** Newlines anywhere in the input change nothing. */
  lemma NewLinesAnywhere(a: seq<Token>, n: nat, b: seq<Token>, q: Quest)
    ensures ParsedQuest(Content(a + (NewLines(n) + b)), q) == ParsedQuest(Content(a + b), q)
  {
    ContentAppend(a, NewLines(n) + b);
    ContentAppend(a, b);
    ContentSkips(n, b);
  }
}
