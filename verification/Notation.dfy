/** What the printer writes for calls, groups and words: the usual notation, at any depth. */
module Notation {
  import opened Tokens
  import opened Printer

  datatype Expr = Word(word: string) | Group(args: seq<Expr>) | Call(name: string, args: seq<Expr>)

  /** Words are plain, and no operator stands directly before the bracket of a call. */
  predicate Proper(e: Expr) {
    match e
    case Word(w) => PlainWord(w)
    case Group(args) => AllProper(args)
    case Call(name, args) => PlainWord(name) && !IsOperator(name[|name| - 1]) && AllProper(args)
  }

  predicate AllProper(args: seq<Expr>) {
    forall i :: 0 <= i < |args| ==> Proper(args[i])
  }

  /** The token trees of an expression and of a list of arguments. */
  function Trees(e: Expr): seq<Tree> {
    match e
    case Word(w) => [Leaf(w)]
    case Group(args) => [Node(ArgTrees(args))]
    case Call(name, args) => [Leaf(name), Node(ArgTrees(args))]
  }

  function ArgTrees(args: seq<Expr>): seq<Tree> {
    if args == [] then []
    else if |args| == 1 then Trees(args[0])
    else Trees(args[0]) + [Leaf(",")] + ArgTrees(args[1..])
  }

  /** The notation.  Between a comma and a group there is no blank. */
  function Text(e: Expr): string {
    match e
    case Word(w) => w
    case Group(args) => "(" + ArgText(args) + ")"
    case Call(name, args) => name + "(" + ArgText(args) + ")"
  }

  function Sep(group: bool): string {
    if group then "," else ", "
  }

  function ArgText(args: seq<Expr>): string {
    if args == [] then ""
    else if |args| == 1 then Text(args[0])
    else Text(args[0]) + Sep(args[1].Group?) + ArgText(args[1..])
  }

  // ---------- The two rewrites ----------

  /** Every blank is followed by something that is neither a comma nor an opening bracket. */
  predicate Settled(u: string) {
    forall i :: 0 <= i < |u| && u[i] == ' ' ==> i + 1 < |u| && u[i + 1] != ',' && u[i + 1] != '('
  }

  lemma {:induction false} CommasPass(u: string, rest: string)
    requires forall i :: 0 <= i < |u| && u[i] == ' ' ==> i + 1 < |u| && u[i + 1] != ','
    ensures TightenCommas(u + rest) == u + TightenCommas(rest)
    decreases |u|
  {
    if u == "" {
      assert u + rest == rest;
    } else {
      var s := u + rest;
      assert s[1..] == u[1..] + rest;
      assert u[0] == ' ' ==> s[1] == u[1];
      CommasPass(u[1..], rest);
      assert [u[0]] + (u[1..] + TightenCommas(rest)) == u + TightenCommas(rest);
    }
  }

  lemma {:induction false} CallsPass(u: string, rest: string)
    requires Settled(u) && !(" (" <= rest)
    ensures TightenCalls(u + rest) == u + TightenCalls(rest)
    decreases |u|
  {
    if u == "" {
      assert u + rest == rest;
    } else {
      var s := u + rest;
      assert s[1..] == u[1..] + rest;
      assert |u| == 1 ==> s[1..] == rest;
      assert !(|s| >= 3 && s[1] == ' ' && s[2] == '(') by {
        if |u| == 1 {
          assert |rest| >= 2 ==> rest[..2] == [rest[0], rest[1]];
        } else {
          assert s[1] == u[1] && (u[1] == ' ' ==> s[2] == u[2]);
        }
      }
      CallsPass(u[1..], rest);
      assert [u[0]] + (u[1..] + TightenCalls(rest)) == u + TightenCalls(rest);
    }
  }

  lemma CallsMatch(c: char, rest: string)
    requires !IsOperator(c)
    ensures TightenCalls([c] + " (" + rest) == [c, '('] + TightenCalls(rest)
  {
    var s := [c] + " (" + rest;
    assert s[3..] == rest && s[0] == c && s[1] == ' ' && s[2] == '(';
  }

  // ---------- Texts before and between the rewrites ----------

  /** The text of an expression with its inner lists printed already. */
  function Spaced(e: Expr): string {
    match e
    case Word(w) => w
    case Group(args) => "(" + ArgText(args) + ")"
    case Call(name, args) => name + " (" + ArgText(args) + ")"
  }

  function SpacedArgs(args: seq<Expr>, comma: string): string {
    if args == [] then ""
    else if |args| == 1 then Spaced(args[0])
    else Spaced(args[0]) + comma + SpacedArgs(args[1..], comma)
  }

  lemma {:induction false} TextIsSettled(e: Expr)
    requires Proper(e)
    ensures Settled(Text(e)) && Text(e) != "" && Text(e)[0] != ' ' && Text(e)[0] != ','
    ensures Text(e)[0] == '(' <==> e.Group?
    decreases e, 1
  {
    if !e.Word? {
      ArgTextIsSettled(e.args);
      SettledJoin("(" + ArgText(e.args), ")");
      SettledJoin("(", ArgText(e.args));
    }
    if e.Call? {
      SettledJoin(e.name, "(" + ArgText(e.args) + ")");
      assert e.name + "(" + ArgText(e.args) + ")" == e.name + ("(" + ArgText(e.args) + ")");
    }
  }

  lemma SettledJoin(u: string, v: string)
    requires Settled(u) && Settled(v)
    ensures Settled(u + v)
  {
  }

  lemma SettledComma(u: string, group: bool, v: string)
    requires Settled(u) && Settled(v) && v != "" && v[0] != ',' && (group || v[0] != '(')
    ensures Settled(u + Sep(group) + v)
  {
  }

  lemma {:induction false} ArgTextIsSettled(args: seq<Expr>)
    requires AllProper(args)
    ensures Settled(ArgText(args))
    ensures args == [] <==> ArgText(args) == ""
    ensures args != [] ==> Text(args[0]) != "" && Text(args[0]) <= ArgText(args)
    decreases args, 2
  {
    if args != [] {
      TextIsSettled(args[0]);
      if |args| > 1 {
        TextIsSettled(args[1]);
        ArgTextIsSettled(args[1..]);
        SettledComma(Text(args[0]), args[1].Group?, ArgText(args[1..]));
      }
    }
  }

  // ---------- Through the rewrites ----------

  lemma SpacedPassesCommas(e: Expr, rest: string)
    requires Proper(e)
    ensures TightenCommas(Spaced(e) + rest) == Spaced(e) + TightenCommas(rest)
  {
    if !e.Word? {
      ArgTextIsSettled(e.args);
      InBrackets(ArgText(e.args));
    }
    CommasPass(Spaced(e), rest);
  }

  lemma InBrackets(t: string)
    requires Settled(t)
    ensures Settled("(" + t + ")")
  {
  }

  lemma {:induction false} AfterCommas(args: seq<Expr>)
    requires AllProper(args)
    ensures TightenCommas(SpacedArgs(args, " , ")) == SpacedArgs(args, ", ")
    decreases |args|
  {
    if |args| == 1 {
      SpacedPassesCommas(args[0], "");
      assert Spaced(args[0]) + "" == Spaced(args[0]);
    } else if |args| > 1 {
      var rest := SpacedArgs(args[1..], " , ");
      AfterCommas(args[1..]);
      SpacedPassesCommas(args[0], " , " + rest);
      assert (" , " + rest)[3..] == rest;
      assert Spaced(args[0]) + " , " + rest == Spaced(args[0]) + (" , " + rest);
      assert Spaced(args[0]) + (", " + SpacedArgs(args[1..], ", ")) == Spaced(args[0]) + ", " + SpacedArgs(args[1..], ", ");
    }
  }

  lemma SpacedPassesCalls(e: Expr, rest: string)
    requires Proper(e) && !(" (" <= rest)
    ensures TightenCalls(Spaced(e) + rest) == Text(e) + TightenCalls(rest)
  {
    match e
    case Word(w) => CallsPass(w, rest);
    case Group(args) =>
      ArgTextIsSettled(args);
      InBrackets(ArgText(args));
      CallsPass("(" + ArgText(args) + ")", rest);
    case Call(name, args) =>
      ArgTextIsSettled(args);
      CallPassesCalls(name, ArgText(args), rest);
      assert name + " (" + ArgText(args) + ")" == name + " (" + (ArgText(args) + ")");
      assert name + "(" + ArgText(args) + ")" == name + "(" + (ArgText(args) + ")");
  }

  lemma CallPassesCalls(name: string, t: string, rest: string)
    requires PlainWord(name) && !IsOperator(name[|name| - 1]) && Settled(t) && !(" (" <= rest)
    ensures TightenCalls(name + " (" + (t + ")") + rest) == name + "(" + (t + ")") + TightenCalls(rest)
  {
    var n := |name| - 1;
    SettledJoin(t, ")");
    CallsPass(t + ")", rest);
    BracketTightens(name[..n], name[n], t + ")" + rest);
    Splice(name, n, t + ")", rest, TightenCalls(rest));
  }

  lemma BracketTightens(front: string, c: char, tail: string)
    requires PlainText(front) && !IsOperator(c) && c != ' '
    ensures TightenCalls(front + ([c] + " (" + tail)) == front + ([c, '('] + TightenCalls(tail))
  {
    CallsMatch(c, tail);
    var mid := [c] + " (" + tail;
    assert mid[0] == c;
    CallsPass(front, mid);
  }

  lemma Splice(name: string, n: nat, t: string, rest: string, rest': string)
    requires |name| == n + 1
    ensures name + " (" + t + rest == name[..n] + ([name[n]] + " (" + (t + rest))
    ensures name + "(" + t + rest' == name[..n] + ([name[n], '('] + (t + rest'))
  {
  }

  lemma TwoChars(a: char, b: char, x: string)
    ensures [a] + ([b] + x) == [a, b] + x
  {
  }

  lemma BlankThen(c: string)
    requires c != "" && c[0] != ' '
    ensures TightenCalls([' '] + c) == [' '] + TightenCalls(c)
  {
    CallsStep(' ', c);
  }

  lemma CommaThenOther(c: string)
    requires c != "" && c[0] != ' ' && c[0] != '('
    ensures TightenCalls(", " + c) == ", " + TightenCalls(c)
  {
    var b := [' '] + c;
    assert b[1] == c[0];
    CallsStep(',', b);
    BlankThen(c);
    TwoChars(',', ' ', c);
    TwoChars(',', ' ', TightenCalls(c));
  }

  lemma BracketThen(m: string)
    requires !(" (" <= m)
    ensures TightenCalls(['('] + m) == ['('] + TightenCalls(m)
  {
    assert |m| >= 2 ==> m[..2] == [m[0], m[1]];
    CallsStep('(', m);
  }

  lemma CommaThenBracket(m: string)
    requires !(" (" <= m)
    ensures TightenCalls([',', ' ', '('] + m) == [','] + TightenCalls(['('] + m)
  {
    CallsMatch(',', m);
    BracketThen(m);
    TwoChars(',', '(', TightenCalls(m));
    assert [','] + " (" + m == [',', ' ', '('] + m;
  }

  lemma CommaThenGroup(c: string)
    requires c != "" && c[0] == '(' && !(" (" <= c[1..])
    ensures TightenCalls(", " + c) == "," + TightenCalls(c)
  {
    CommaThenBracket(c[1..]);
    GroupSpelled(c);
  }

  lemma GroupSpelled(c: string)
    requires c != "" && c[0] == '('
    ensures ['('] + c[1..] == c && [',', ' ', '('] + c[1..] == ", " + c && [','] == ","
  {
  }

  lemma AfterComma(c: string)
    requires c != "" && c[0] != ' ' && (c[0] == '(' ==> !(" (" <= c[1..]))
    ensures TightenCalls(", " + c) == Sep(c[0] == '(') + TightenCalls(c)
  {
    if c[0] == '(' {
      CommaThenGroup(c);
    } else {
      CommaThenOther(c);
    }
  }

  lemma SpacedStarts(args: seq<Expr>, comma: string)
    requires AllProper(args) && args != [] && comma != "" && comma[0] == ','
    ensures var c := SpacedArgs(args, comma);
      && c != "" && c[0] != ' ' && (c[0] == '(' <==> args[0].Group?) && (c[0] == '(' ==> !(" (" <= c[1..]))
  {
    var e, c := args[0], SpacedArgs(args, comma);
    assert Spaced(e) <= c;
    if e.Group? {
      ArgTextIsSettled(e.args);
      if e.args != [] {
        TextIsSettled(e.args[0]);
      }
      assert c[1] == ("(" + ArgText(e.args) + ")")[1];
      assert c[1..][0] == c[1] != ' ';
    }
  }

  lemma {:induction false} AfterCalls(args: seq<Expr>)
    requires AllProper(args)
    ensures TightenCalls(SpacedArgs(args, ", ")) == ArgText(args)
    decreases |args|
  {
    if |args| == 1 {
      SpacedPassesCalls(args[0], "");
      assert Spaced(args[0]) + "" == Spaced(args[0]) && Text(args[0]) + "" == Text(args[0]);
    } else if |args| > 1 {
      AfterCalls(args[1..]);
      AfterFirst(args[0], args[1..]);
    }
  }

  lemma AfterFirst(e: Expr, rest: seq<Expr>)
    requires Proper(e) && AllProper(rest) && rest != []
    ensures var c := SpacedArgs(rest, ", ");
      TightenCalls(Spaced(e) + ", " + c) == Text(e) + Sep(rest[0].Group?) + TightenCalls(c)
  {
    var c := SpacedArgs(rest, ", ");
    SpacedStarts(rest, ", ");
    AfterComma(c);
    SpacedPassesCalls(e, ", " + c);
    Assoc(Spaced(e), ", ", c);
    Assoc(Text(e), Sep(rest[0].Group?), TightenCalls(c));
  }

  lemma Assoc(a: string, b: string, c: string)
    ensures a + b + c == a + (b + c)
  {
  }

  lemma NoMinusBlank(args: seq<Expr>)
    requires AllProper(args)
    ensures TightenMinus(ArgText(args)) == ArgText(args)
  {
    if args != [] {
      assert Text(args[0]) <= ArgText(args);
      assert Proper(args[0]);
    }
  }

  // ---------- Joining ----------

  lemma {:induction false} JoinAppend(a: seq<Tree>, b: seq<Tree>)
    requires a != [] && b != []
    ensures Join(a + b) == Join(a) + " " + Join(b)
  {
    JoinHead(a + b);
    JoinHead(a);
    if |a| == 1 {
      assert (a + b)[1..] == b;
    } else {
      assert (a + b)[1..] == a[1..] + b;
      JoinAppend(a[1..], b);
    }
  }

  lemma {:induction false} JoinedTrees(e: Expr)
    requires Proper(e)
    ensures Join(Trees(e)) == Spaced(e)
    decreases e, 3
  {
    if !e.Word? {
      PrintsNotation(e.args);
    }
    if e.Call? {
      var item := Node(ArgTrees(e.args));
      assert [Leaf(e.name), item] == [Leaf(e.name)] + [item];
      JoinAppend([Leaf(e.name)], [item]);
    }
  }

  lemma {:induction false} JoinedArgs(args: seq<Expr>)
    requires AllProper(args)
    ensures Join(ArgTrees(args)) == SpacedArgs(args, " , ")
    decreases args, 4
  {
    if args != [] {
      JoinedTrees(args[0]);
      if |args| > 1 {
        JoinedArgs(args[1..]);
        JoinThree(Trees(args[0]), ArgTrees(args[1..]));
      }
    }
  }

  lemma JoinThree(a: seq<Tree>, b: seq<Tree>)
    requires a != [] && b != []
    ensures Join(a + [Leaf(",")] + b) == Join(a) + " , " + Join(b)
  {
    JoinAppend(a, [Leaf(",")]);
    JoinAppend(a + [Leaf(",")], b);
    assert Join([Leaf(",")]) == ",";
    assert Join(a) + " " + "," + " " == Join(a) + " , ";
  }

  /** Every list of proper arguments is printed in the usual notation, whatever is nested in it. */
  lemma {:induction false} PrintsNotation(args: seq<Expr>)
    requires AllProper(args)
    ensures Reconstruct(ArgTrees(args)) == ArgText(args)
    decreases args, 5
  {
    JoinedArgs(args);
    AfterCommas(args);
    AfterCalls(args);
    NoMinusBlank(args);
  }

  // ---------- Operators before brackets ----------

  lemma OperatorPasses(front: string, c: char, t: string)
    requires PlainText(front) && IsOperator(c) && Settled(t)
    ensures TightenCalls(front + ([c] + (" " + ("(" + t + ")")))) == front + ([c] + (" " + ("(" + t + ")")))
  {
    var group := "(" + t + ")";
    InBrackets(t);
    CallsPass(group, "");
    assert group + "" == group && group[0] == '(';
    CallsStep(' ', group);
    CallsStep(c, " " + group);
    var mid := [c] + (" " + group);
    assert mid[0] == c;
    CallsPass(front, mid);
  }

  lemma JoinedPair(w: string, kids: seq<Tree>)
    ensures Join([Leaf(w), Node(kids)]) == w + (" " + ("(" + Reconstruct(kids) + ")"))
  {
    var items := [Leaf(w), Node(kids)];
    assert items[1..] == [Node(kids)];
    assert Join(items[1..]) == "(" + Reconstruct(kids) + ")";
    Assoc(w, " ", "(" + Reconstruct(kids) + ")");
  }

  lemma OperatorJoined(w: string, args: seq<Expr>)
    requires PlainWord(w) && AllProper(args)
    ensures TightenCommas(Join([Leaf(w), Node(ArgTrees(args))])) == w + (" " + ("(" + ArgText(args) + ")"))
  {
    var group := "(" + ArgText(args) + ")";
    PrintsNotation(args);
    JoinedPair(w, ArgTrees(args));
    ArgTextIsSettled(args);
    InBrackets(ArgText(args));
    BlankFits(w, group);
    CommasPass(w + (" " + group), "");
    assert w + (" " + group) + "" == w + (" " + group);
  }

  lemma BlankFits(w: string, group: string)
    requires PlainText(w) && Settled(group) && group != "" && group[0] == '('
    ensures var s := w + (" " + group); forall i :: 0 <= i < |s| && s[i] == ' ' ==> i + 1 < |s| && s[i + 1] != ','
  {
    var s := w + (" " + group);
    forall i | 0 <= i < |s| && s[i] == ' ' ensures i + 1 < |s| && s[i + 1] != ',' {
      if i > |w| {
        assert s[i] == group[i - |w| - 1];
      } else if i == |w| {
        assert s[i + 1] == group[0];
      }
    }
  }

  lemma MinusBeforeGroup(w: string, group: string)
    requires PlainWord(w)
    ensures TightenMinus(w + (" " + group)) == if w == "-" then "-" + group else w + (" " + group)
  {
    var s := w + (" " + group);
    assert s[0] == w[0];
    if |w| > 1 {
      assert s[1] == w[1] && IsPlain(w[1]);
    } else {
      assert w == [w[0]] && s[1] == ' ' && s[2..] == group;
    }
  }

  lemma OperatorTightened(w: string, args: seq<Expr>)
    requires PlainWord(w) && AllProper(args) && IsOperator(w[|w| - 1])
    ensures TightenCalls(TightenCommas(Join([Leaf(w), Node(ArgTrees(args))]))) == w + (" " + ("(" + ArgText(args) + ")"))
  {
    var group, n := "(" + ArgText(args) + ")", |w| - 1;
    OperatorJoined(w, args);
    ArgTextIsSettled(args);
    OperatorPasses(w[..n], w[n], ArgText(args));
    SplitLast(w, " " + group);
  }

  lemma SplitLast(w: string, rest: string)
    requires w != ""
    ensures w[..|w| - 1] + ([w[|w| - 1]] + rest) == w + rest
  {
  }

  lemma Spelled(w: string, text: string)
    ensures w + "(" + text + ")" == w + ("(" + text + ")") && w + " (" + text + ")" == w + (" " + ("(" + text + ")"))
  {
  }

  /** Behind an operator the blank before a bracket stays, except behind a minus sign that starts the text. */
  lemma OperatorsKeepBlank(w: string, args: seq<Expr>)
    requires PlainWord(w) && AllProper(args)
    requires w[|w| - 1] == '+' || w[|w| - 1] == '-' || w[|w| - 1] == '*' || w[|w| - 1] == '/'
    ensures Reconstruct([Leaf(w), Node(ArgTrees(args))]) == w + (if w == "-" then "(" else " (") + ArgText(args) + ")"
  {
    OperatorTightened(w, args);
    MinusBeforeGroup(w, "(" + ArgText(args) + ")");
    Spelled(w, ArgText(args));
  }

  lemma OneArg(e: Expr)
    ensures ArgTrees([e]) == Trees(e) && ArgText([e]) == Text(e)
  {
  }

  lemma TwoArgs(a: Expr, b: Expr)
    ensures ArgTrees([a, b]) == Trees(a) + [Leaf(",")] + Trees(b)
    ensures ArgText([a, b]) == Text(a) + Sep(b.Group?) + Text(b)
  {
    assert [a, b][1..] == [b];
  }

  /** A list that holds just a call keeps its own brackets.  The second example in the documentation of the
      printer is such a tree, and the text that stands there lacks them. */
  lemma GroupsKeepBrackets(f: string, g: string, args: seq<Expr>, b: string)
    requires Proper(Call(f, [])) && Proper(Call(g, args)) && Proper(Word(b))
    ensures Reconstruct([Leaf(f), Node([Node([Leaf(g), Node(ArgTrees(args))]), Leaf(","), Leaf(b)])])
      == f + "((" + g + "(" + ArgText(args) + ")), " + b + ")"
  {
    var call := Call(g, args);
    var group := Group([call]);
    var e := Call(f, [group, Word(b)]);
    ProperOne(call);
    ProperTwo(group, Word(b));
    ProperOne(e);
    OneArg(call);
    TwoArgs(group, Word(b));
    OneArg(e);
    assert [Node(Trees(call))] + [Leaf(",")] + [Leaf(b)] == [Node(Trees(call)), Leaf(","), Leaf(b)];
    PrintsNotation([e]);
    Brackets(f, g, ArgText(args), b);
  }

  lemma ProperOne(a: Expr)
    requires Proper(a)
    ensures AllProper([a])
  {
  }

  lemma ProperTwo(a: Expr, b: Expr)
    requires Proper(a) && Proper(b)
    ensures AllProper([a, b])
  {
  }

  lemma Brackets(f: string, g: string, t: string, b: string)
    ensures f + "(" + ("(" + (g + "(" + t + ")") + ")" + ", " + b) + ")" == f + "((" + g + "(" + t + ")), " + b + ")"
  {
  }
}
