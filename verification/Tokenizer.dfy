/** The tokenizer as the program runs it: one index over the lexemes, a stack of open lists,
    and an inner loop that swallows sub- and superscript groups. */
module Tokenizer {
  import opened Options
  import opened Tokens
  import opened RoundTrip

  lemma SuffixStep(tokens: seq<Lexeme>, i: nat)
    requires i < |tokens|
    ensures tokens[i..] == [tokens[i]] + tokens[i + 1..]
  {
  }

  lemma RunStep(t: Lexeme, rest: seq<Lexeme>, m: Machine)
    requires m.Valid()
    ensures t == "{" && TakesScript(m.prev) ==>
      Run([t] + rest, m) == Run(Group(rest, 1).1, m.Attach(Group(rest, 1).0))
    ensures Opens(t) && !(t == "{" && TakesScript(m.prev)) ==> Run([t] + rest, m) == Run(rest, m.Open())
    ensures Closes(t) ==> Run([t] + rest, m) == if m.below != [] then Run(rest, m.Close()) else None
    ensures t == "," ==> Run([t] + rest, m) == Run(rest, m.Comma())
    ensures !Opens(t) && !Closes(t) && t != "," ==> Run([t] + rest, m) == Run(rest, m.Word(t))
  {
    assert ([t] + rest)[1..] == rest;
  }

  /** The stack of the program is `stack` with the list `cur` on top.  `None` stands for the
      error about mismatched brackets. */
  method TokenizeWithCommas(s: string) returns (r: Option<seq<Tree>>)
    ensures r == Tokenize(s)
  {
    if s == "" {
      return Some([]);
    }
    var tokens := Lexemes(s);
    var stack: seq<seq<Tree>>, cur: seq<Tree>, prev: Option<string> := [], [], None;
    var i := 0;
    assert tokens[0..] == tokens;
    while i < |tokens|
      invariant 0 <= i <= |tokens| && Machine(stack, cur, prev).Valid()
      invariant Run(tokens[i..], Machine(stack, cur, prev)) == Tokenize(s)
    {
      var token := tokens[i];
      SuffixStep(tokens, i);
      RunStep(token, tokens[i + 1..], Machine(stack, cur, prev));
      if Opens(token) {
        if token == "{" && TakesScript(prev) {
          var inner, next := ConsumeGroup(tokens, i + 1);
          var combined := ScriptText(prev.value, inner);
          cur := cur[..|cur| - 1] + [Leaf(combined)];
          prev := Some(combined);
          i := next;
        } else {
          stack, cur := stack + [cur], [];
          prev := None;
          i := i + 1;
        }
      } else if Closes(token) {
        if stack == [] {
          return None;
        }
        stack, cur := stack[..|stack| - 1], stack[|stack| - 1] + [Node(cur)];
        prev := None;
        i := i + 1;
      } else if token == "," {
        cur := cur + [Leaf(",")];
        prev := None;
        i := i + 1;
      } else {
        if Splits(token) {
          cur := cur + [Leaf(Coefficient(token)), Leaf(Remainder(token))];
          prev := Some(Remainder(token));
        } else {
          cur := cur + [Leaf(token)];
          prev := Some(token);
        }
        i := i + 1;
      }
    }
    assert tokens[i..] == [];
    return if stack == [] then Some(cur) else None;
  }

  /** The inner loop, entered behind the opening brace of a group. */
  method ConsumeGroup(tokens: seq<Lexeme>, start: nat) returns (inner: string, i: nat)
    requires start <= |tokens|
    ensures start <= i <= |tokens|
    ensures inner == Group(tokens[start..], 1).0 && tokens[i..] == Group(tokens[start..], 1).1
  {
    var depth := 1;
    inner, i := "", start;
    assert "" + Group(tokens[start..], 1).0 == Group(tokens[start..], 1).0;
    while i < |tokens| && depth > 0
      invariant start <= i <= |tokens| && depth >= 0
      invariant Prefixed(inner, Group(tokens[i..], depth)) == Group(tokens[start..], 1)
      decreases |tokens| - i
    {
      var tk := tokens[i];
      SuffixStep(tokens, i);
      GroupStep(inner, tk, tokens[i + 1..], depth);
      if tk == "{" {
        depth := depth + 1;
        inner := inner + tk;
      } else if tk == "}" {
        depth := depth - 1;
        if depth > 0 {
          inner := inner + tk;
        }
      } else {
        inner := inner + tk;
      }
      i := i + 1;
    }
    assert i == |tokens| ==> tokens[i..] == [];
    assert inner + "" == inner;
  }

  lemma GroupStep(before: string, t: Lexeme, rest: seq<Lexeme>, depth: nat)
    requires depth >= 1
    ensures Prefixed(before, Group([t] + rest, depth)) ==
      if t == "}" && depth == 1 then Prefixed(before, Group(rest, 0))
      else Prefixed(before + t, Group(rest, if t == "{" then depth + 1 else if t == "}" then depth - 1 else depth))
  {
    assert ([t] + rest)[1..] == rest;
    if !(t == "}" && depth == 1) {
      var r := Group(rest, if t == "{" then depth + 1 else if t == "}" then depth - 1 else depth);
      assert before + (t + r.0) == (before + t) + r.0;
    }
  }
}
