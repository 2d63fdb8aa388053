/** Rewriting the keys of JSON objects token by token (internal/g/camel_snake.go). */
module JsonKeys {
  import opened Wrappers

  /** The code points of a string. */
  type Text = seq<int>

  // ----- JSON values and their tokens -----

  datatype Json =
    | Null
    | Bool(b: bool)
    | Num(digits: Text)
    | Str(s: Text)
    | Arr(items: seq<Json>)
    | Obj(members: seq<Member>)

  datatype Member = Member(key: Text, value: Json)

  /** What the decoder hands out: commas and colons are not among its tokens. */
  datatype Token = Open(brace: bool) | Close(brace: bool) | Scalar(v: Json)

  /** What is written. */
  datatype Piece = OpenPiece(brace: bool) | ClosePiece(brace: bool) | Comma | Colon | Value(v: Json)

  function Tokens(v: Json): seq<Token> {
    match v
    case Arr(items) => [Open(false)] + ItemTokens(items) + [Close(false)]
    case Obj(members) => [Open(true)] + MemberTokens(members) + [Close(true)]
    case _ => [Scalar(v)]
  }

  function ItemTokens(items: seq<Json>): seq<Token> {
    if items == [] then [] else Tokens(items[0]) + ItemTokens(items[1..])
  }

  function MemberTokens(members: seq<Member>): seq<Token> {
    if members == [] then []
    else [Scalar(Str(members[0].key))] + Tokens(members[0].value) + MemberTokens(members[1..])
  }

  /** The value as it is written: sections 4 and 5 of RFC 8259. */
  function Render(v: Json): seq<Piece> {
    match v
    case Arr(items) => [OpenPiece(false)] + RenderItems(items) + [ClosePiece(false)]
    case Obj(members) => [OpenPiece(true)] + RenderMembers(members) + [ClosePiece(true)]
    case _ => [Value(v)]
  }

  function RenderItems(items: seq<Json>): seq<Piece> {
    if items == [] then []
    else Render(items[0]) + (if |items| > 1 then [Comma] else []) + RenderItems(items[1..])
  }

  function RenderMembers(members: seq<Member>): seq<Piece> {
    if members == [] then []
    else [Value(Str(members[0].key)), Colon] + Render(members[0].value) + (if |members| > 1 then [Comma] else [])
         + RenderMembers(members[1..])
  }

  /** Every key at every depth replaced, everything else kept. */
  function Rewrite(v: Json, f: Text -> Text): Json {
    match v
    case Arr(items) => Arr(seq(|items|, i requires 0 <= i < |items| => Rewrite(items[i], f)))
    case Obj(members) =>
      Obj(seq(|members|, i requires 0 <= i < |members| => Member(f(members[i].key), Rewrite(members[i].value, f))))
    case _ => v
  }

  /** How many containers are open at the deepest point. */
  function Depth(v: Json): nat {
    match v
    case Arr(items) => 1 + ItemsDepth(items)
    case Obj(members) => 1 + MembersDepth(members)
    case _ => 0
  }

  function ItemsDepth(items: seq<Json>): nat {
    if items == [] then 0 else Max(Depth(items[0]), ItemsDepth(items[1..]))
  }

  function MembersDepth(members: seq<Member>): nat {
    if members == [] then 0 else Max(Depth(members[0].value), MembersDepth(members[1..]))
  }

  function Max(a: nat, b: nat): nat { if a > b then a else b }

  // ----- the automaton -----

  /** An int64 after an operation whose exact result is x. */
  function Wrapped(x: int): int {
    (x + 0x8000_0000_0000_0000) % 0x1_0000_0000_0000_0000 - 0x8000_0000_0000_0000
  }

  datatype State = State(isMap: bool, nextTokenIsKey: bool, delimiters: int)

  const START: State := State(false, false, 0)

  function Pushed(delimiters: int, brace: bool): int {
    Wrapped(2 * delimiters) + if brace then 1 else 0
  }

  /** The shift to the right keeps the sign. */
  function Popped(delimiters: int): int { delimiters / 2 }

  predicate IsKey(s: State) { s.isMap && s.nextTokenIsKey }

  function Written(s: State, t: Token, f: Text -> Text): Piece {
    match t
    case Open(brace) => OpenPiece(brace)
    case Close(brace) => ClosePiece(brace)
    case Scalar(v) => if v.Str? && IsKey(s) then Value(Str(f(v.s))) else Value(v)
  }

  /** The state in which the tail of the loop sees a token. */
  function Entered(s: State, t: Token): State {
    if !t.Close? then s else
    var d := Popped(s.delimiters);
    State(d % 2 == 1, if d % 2 == 1 then false else s.nextTokenIsKey, d)
  }

  /** The state after a token, and all that is written for it; `more` says whether the container goes on. */
  function Step(s: State, t: Token, more: bool, f: Text -> Text): (State, seq<Piece>) {
    if t.Open? then
      (State(t.brace, if t.brace then true else s.nextTokenIsKey, Pushed(s.delimiters, t.brace)), [Written(s, t, f)])
    else
      var e := Entered(s, t);
      if IsKey(e) then (e.(nextTokenIsKey := false), [Written(s, t, f), Colon])
      else (e.(nextTokenIsKey := !e.nextTokenIsKey), [Written(s, t, f)] + if more then [Comma] else [])
  }

  /** Whether the decoder sees more before the container ends; `after` is the answer at the end of these tokens. */
  predicate More(tokens: seq<Token>, after: bool) {
    if tokens == [] then after else !tokens[0].Close?
  }

  function Run(s: State, tokens: seq<Token>, after: bool, f: Text -> Text): (State, seq<Piece>)
    decreases |tokens|
  {
    if tokens == [] then (s, []) else
    var step := Step(s, tokens[0], More(tokens[1..], after), f);
    var rest := Run(step.0, tokens[1..], after, f);
    (rest.0, step.1 + rest.1)
  }

  /** The loop; nothing is rewritten when the decoder fails. */
  method ChangeJsonKeys(tokens: seq<Token>, failed: bool, f: Text -> Text) returns (out: Option<seq<Piece>>)
    ensures out == if failed then None else Some(Run(START, tokens, false, f).1)
  {
    var buf: seq<Piece> := [];
    var isMap, nextTokenIsKey, delimiters := false, false, 0;
    var i := 0;
    assert tokens[0..] == tokens && [] + Run(START, tokens, false, f).1 == Run(START, tokens, false, f).1;
    while i < |tokens|
      invariant i <= |tokens|
      invariant Run(START, tokens, false, f).1
             == buf + Run(State(isMap, nextTokenIsKey, delimiters), tokens[i..], false, f).1
    {
      var token := tokens[i];
      ghost var s, was := State(isMap, nextTokenIsKey, delimiters), buf;
      RunOne(buf, s, tokens, i, f);
      var more := i + 1 < |tokens| && !tokens[i + 1].Close?;
      ghost var step := Step(s, token, more, f);
      i := i + 1;
      if token.Open? {
        buf := buf + [OpenPiece(token.brace)];
        delimiters := Wrapped(2 * delimiters);
        if token.brace {
          delimiters, isMap, nextTokenIsKey := delimiters + 1, true, true;
        } else {
          isMap := false;
        }
        assert step == (State(isMap, nextTokenIsKey, delimiters), [OpenPiece(token.brace)]);
        continue;
      }
      if token.Close? {
        buf := buf + [ClosePiece(token.brace)];
        delimiters := delimiters / 2;
        if delimiters % 2 == 1 {
          isMap, nextTokenIsKey := true, false;
        } else {
          isMap := false;
        }
      } else if token.v.Str? && isMap && nextTokenIsKey {
        buf := buf + [Value(Str(f(token.v.s)))];
      } else {
        buf := buf + [Value(token.v)];
      }
      if isMap && nextTokenIsKey {
        buf, nextTokenIsKey := buf + [Colon], false;
        assert State(isMap, nextTokenIsKey, delimiters) == step.0 && buf == was + step.1;
        continue;
      }
      nextTokenIsKey := !nextTokenIsKey;
      if more {
        buf := buf + [Comma];
      }
      assert State(isMap, nextTokenIsKey, delimiters) == step.0 && buf == was + step.1;
    }
    ghost var rest := Run(State(isMap, nextTokenIsKey, delimiters), tokens[|tokens|..], false, f).1;
    assert tokens[|tokens|..] == [] && rest == [] && buf + rest == buf;
    if failed {
      return None;
    }
    return Some(buf);
  }

  lemma RunOne(buf: seq<Piece>, s: State, tokens: seq<Token>, i: nat, f: Text -> Text)
    requires i < |tokens|
    ensures var step := Step(s, tokens[i], i + 1 < |tokens| && !tokens[i + 1].Close?, f);
            buf + Run(s, tokens[i..], false, f).1 == buf + step.1 + Run(step.0, tokens[i + 1..], false, f).1
  {
    assert tokens[i..][1..] == tokens[i + 1..];
    var step := Step(s, tokens[i], i + 1 < |tokens| && !tokens[i + 1].Close?, f);
    assert Run(s, tokens[i..], false, f).1 == step.1 + Run(step.0, tokens[i + 1..], false, f).1;
  }

  lemma RunUnfold(s: State, tokens: seq<Token>, after: bool, f: Text -> Text)
    requires tokens != []
    ensures var step := Step(s, tokens[0], More(tokens[1..], after), f);
            var rest := Run(step.0, tokens[1..], after, f);
            Run(s, tokens, after, f).0 == rest.0 && Run(s, tokens, after, f).1 == step.1 + rest.1
  {
  }

  lemma Associates(a: seq<Piece>, b: seq<Piece>, c: seq<Piece>)
    ensures a + (b + c) == a + b + c
  {
  }

  lemma {:induction false} RunConcat(s: State, a: seq<Token>, b: seq<Token>, after: bool, f: Text -> Text)
    ensures var first := Run(s, a, More(b, after), f);
            var second := Run(first.0, b, after, f);
            Run(s, a + b, after, f) == (second.0, first.1 + second.1)
    decreases |a|
  {
    if a == [] {
      assert a + b == b;
      assert Run(s, a, More(b, after), f) == (s, []);
      assert [] + Run(s, b, after, f).1 == Run(s, b, after, f).1;
    } else {
      assert (a + b)[1..] == a[1..] + b;
      var step := Step(s, a[0], More(a[1..], More(b, after)), f);
      assert More((a + b)[1..], after) == More(a[1..], More(b, after));
      RunConcat(step.0, a[1..], b, after, f);
      RunUnfold(s, a + b, after, f);
      RunUnfold(s, a, More(b, after), f);
      var first := Run(step.0, a[1..], More(b, after), f);
      Associates(step.1, first.1, Run(first.0, b, after, f).1);
    }
  }

  // ----- the stack of containers, packed into 64 bits -----

  /** The low bits say which of the open containers are objects, the innermost one in the lowest bit. */
  predicate Agrees(delimiters: int, stack: seq<bool>)
    decreases |stack|
  {
    stack == [] || (
      var last := |stack| - 1;
      (delimiters % 2 == 1) == stack[last] && Agrees(delimiters / 2, stack[..last]))
  }

  function Pow2(n: nat): nat {
    if n == 0 then 1 else 2 * Pow2(n - 1)
  }

  lemma {:induction false} Pow2Add(a: nat, b: nat)
    ensures Pow2(a) * Pow2(b) == Pow2(a + b)
  {
    if a > 0 { Pow2Add(a - 1, b); }
  }

  /** Bits above the stack do not matter. */
  lemma {:induction false} HighBits(delimiters: int, stack: seq<bool>, m: int)
    ensures Agrees(delimiters + m * Pow2(|stack|), stack) == Agrees(delimiters, stack)
    decreases |stack|
  {
    if stack != [] {
      var last := |stack| - 1;
      var more := m * Pow2(last);
      assert m * Pow2(|stack|) == 2 * more;
      assert (delimiters + 2 * more) / 2 == delimiters / 2 + more;
      HighBits(delimiters / 2, stack[..last], m);
    }
  }

  lemma Pow63()
    ensures Pow2(63) == 0x8000_0000_0000_0000
  {
    assert Pow2(9) == 512;
    Pow2Add(9, 9);
    Pow2Add(18, 18);
    Pow2Add(36, 18);
    Pow2Add(54, 9);
  }

  /** A bit pushed out of 64 is only missed once the stack is deeper than 64. */
  lemma PushAgrees(delimiters: int, stack: seq<bool>, brace: bool)
    requires Agrees(delimiters, stack) && |stack| <= 63
    ensures Agrees(Pushed(delimiters, brace), stack + [brace])
  {
    var k := PushedBits(delimiters, brace);
    var m := -k * Pow2(63 - |stack|);
    assert m * Pow2(|stack|) == -k * 0x8000_0000_0000_0000 by { TopBits(k, |stack|); }
    HighBits(delimiters, stack, m);
    assert (stack + [brace])[..|stack|] == stack;
  }

  lemma TopBits(k: int, n: nat)
    requires n <= 63
    ensures -k * Pow2(63 - n) * Pow2(n) == -k * 0x8000_0000_0000_0000
  {
    Pow63();
    Pow2Add(63 - n, n);
    assert -k * Pow2(63 - n) * Pow2(n) == -k * (Pow2(63 - n) * Pow2(n));
  }

  lemma PushedBits(delimiters: int, brace: bool) returns (k: int)
    ensures (Pushed(delimiters, brace) % 2 == 1) == brace
    ensures Pushed(delimiters, brace) / 2 == delimiters + -k * 0x8000_0000_0000_0000
  {
    k := (2 * delimiters + 0x8000_0000_0000_0000) / 0x1_0000_0000_0000_0000;
    assert Wrapped(2 * delimiters) == 2 * (delimiters - k * 0x8000_0000_0000_0000);
  }

  lemma PopAgrees(delimiters: int, stack: seq<bool>)
    requires stack != [] && Agrees(delimiters, stack)
    ensures Agrees(Popped(delimiters), stack[..|stack| - 1])
  {
  }

  // ----- the automaton rewrites -----

  /** The next token is a value inside these containers. */
  ghost predicate AtValue(s: State, stack: seq<bool>) {
    Agrees(s.delimiters, stack) && !IsKey(s) && (stack != [] ==> s.isMap == stack[|stack| - 1])
  }

  /** A value inside these containers has been read. */
  ghost predicate PastValue(s: State, stack: seq<bool>) {
    Agrees(s.delimiters, stack) && (stack != [] ==> s.isMap == stack[|stack| - 1] && (s.isMap ==> s.nextTokenIsKey))
  }

  function CommaIf(more: bool): seq<Piece> {
    if more then [Comma] else []
  }

  lemma FirstToken(v: Json, rest: seq<Token>, after: bool)
    ensures Tokens(v) != [] && More(Tokens(v) + rest, after)
  {
  }

  lemma {:induction false} RunValue(v: Json, s: State, stack: seq<bool>, after: bool, f: Text -> Text)
    requires AtValue(s, stack) && |stack| + Depth(v) <= 64
    ensures var r := Run(s, Tokens(v), after, f);
            r.1 == Render(Rewrite(v, f)) + CommaIf(after) && PastValue(r.0, stack)
    decreases v, 1
  {
    match v
    case Arr(items) => RunArr(items, s, stack, after, f);
    case Obj(members) => RunObj(members, s, stack, after, f);
    case _ => RunScalar(v, s, stack, after, f);
  }

  lemma {:induction false} RunArr(items: seq<Json>, s: State, stack: seq<bool>, after: bool, f: Text -> Text)
    requires AtValue(s, stack) && |stack| + 1 + ItemsDepth(items) <= 64
    ensures var r := Run(s, Tokens(Arr(items)), after, f);
            r.1 == Render(Rewrite(Arr(items), f)) + CommaIf(after) && PastValue(r.0, stack)
    decreases items, 1
  {
    PushAgrees(s.delimiters, stack, false);
    RunItems(items, Step(s, Open(false), true, f).0, stack + [false], f);
    Enclosed(s, stack, false, ItemTokens(items), after, f);
    assert Render(Rewrite(Arr(items), f)) == [OpenPiece(false)] + RenderItems(Rewrite(Arr(items), f).items)
           + [ClosePiece(false)];
  }

  lemma {:induction false} RunObj(members: seq<Member>, s: State, stack: seq<bool>, after: bool, f: Text -> Text)
    requires AtValue(s, stack) && |stack| + 1 + MembersDepth(members) <= 64
    ensures var r := Run(s, Tokens(Obj(members)), after, f);
            r.1 == Render(Rewrite(Obj(members), f)) + CommaIf(after) && PastValue(r.0, stack)
    decreases members, 1
  {
    PushAgrees(s.delimiters, stack, true);
    RunMembers(members, Step(s, Open(true), true, f).0, stack + [true], f);
    Enclosed(s, stack, true, MemberTokens(members), after, f);
    assert Render(Rewrite(Obj(members), f))
        == [OpenPiece(true)] + RenderMembers(Rewrite(Obj(members), f).members) + [ClosePiece(true)];
  }

  lemma RunScalar(v: Json, s: State, stack: seq<bool>, after: bool, f: Text -> Text)
    requires AtValue(s, stack)
    ensures var r := Run(s, [Scalar(v)], after, f); r.1 == [Value(v)] + CommaIf(after) && PastValue(r.0, stack)
  {
    var step := Step(s, Scalar(v), after, f);
    assert [Scalar(v)][1..] == [];
    assert Run(s, [Scalar(v)], after, f) == (step.0, step.1 + []);
    assert step.1 + [] == step.1;
  }

  /** Opening and closing a container around what is run inside it. */
  lemma {:induction false} Enclosed(s: State, stack: seq<bool>, brace: bool, inner: seq<Token>, after: bool,
                                    f: Text -> Text)
    requires AtValue(s, stack)
    requires var s1 := Step(s, Open(brace), true, f).0; Agrees(Run(s1, inner, false, f).0.delimiters, stack + [brace])
    ensures var s1 := Step(s, Open(brace), true, f).0;
            var r := Run(s, [Open(brace)] + inner + [Close(brace)], after, f);
            && r.1 == [OpenPiece(brace)] + Run(s1, inner, false, f).1 + [ClosePiece(brace)] + CommaIf(after)
            && PastValue(r.0, stack)
  {
    var s1 := Step(s, Open(brace), true, f).0;
    var tokens := [Open(brace)] + inner + [Close(brace)];
    assert tokens[1..] == inner + [Close(brace)];
    var middle := Run(s1, inner, false, f);
    RunUnfold(s, tokens, after, f);
    RunConcat(s1, inner, [Close(brace)], after, f);
    Closed(middle.0, stack, brace, after, f);
    Associates([OpenPiece(brace)], middle.1, [ClosePiece(brace)] + CommaIf(after));
    Associates([OpenPiece(brace)] + middle.1, [ClosePiece(brace)], CommaIf(after));
  }

  lemma Closed(s: State, stack: seq<bool>, brace: bool, after: bool, f: Text -> Text)
    requires Agrees(s.delimiters, stack + [brace])
    ensures var r := Run(s, [Close(brace)], after, f);
            r.1 == [ClosePiece(brace)] + CommaIf(after) && PastValue(r.0, stack)
  {
    PopAgrees(s.delimiters, stack + [brace]);
    assert (stack + [brace])[..|stack|] == stack;
    assert [Close(brace)][1..] == [];
    var end := Step(s, Close(brace), after, f);
    assert Run(s, [Close(brace)], after, f) == (end.0, end.1 + []);
    assert end.1 + [] == end.1;
  }

  lemma {:induction false} RunItems(items: seq<Json>, s: State, stack: seq<bool>, f: Text -> Text)
    requires Agrees(s.delimiters, stack) && stack != [] && !stack[|stack| - 1] && !s.isMap
    requires |stack| + ItemsDepth(items) <= 64
    ensures var r := Run(s, ItemTokens(items), false, f);
            r.1 == RenderItems(Rewrite(Arr(items), f).items) && Agrees(r.0.delimiters, stack)
    decreases items, 0
  {
    if items != [] {
      var rest := items[1..];
      var more := rest != [];
      if more { FirstToken(rest[0], ItemTokens(rest[1..]), false); }
      assert More(ItemTokens(rest), false) == more;
      RunValue(items[0], s, stack, more, f);
      RunConcat(s, Tokens(items[0]), ItemTokens(rest), false, f);
      RunItems(rest, Run(s, Tokens(items[0]), more, f).0, stack, f);
      RewriteItems(items, f);
    }
  }

  lemma RewriteItems(items: seq<Json>, f: Text -> Text)
    ensures var r := Rewrite(Arr(items), f).items;
            items != [] ==> r[0] == Rewrite(items[0], f) && r[1..] == Rewrite(Arr(items[1..]), f).items
  {
  }

  lemma {:induction false} RunMembers(members: seq<Member>, s: State, stack: seq<bool>, f: Text -> Text)
    requires Agrees(s.delimiters, stack) && stack != [] && stack[|stack| - 1] && IsKey(s)
    requires |stack| + MembersDepth(members) <= 64
    ensures var r := Run(s, MemberTokens(members), false, f);
            r.1 == RenderMembers(Rewrite(Obj(members), f).members) && Agrees(r.0.delimiters, stack)
    decreases members, 0
  {
    if members != [] {
      var m, rest := members[0], members[1..];
      var one := [Scalar(Str(m.key))] + Tokens(m.value);
      assert MemberTokens(members) == one + MemberTokens(rest);
      assert More(MemberTokens(rest), false) == (rest != []);
      RunConcat(s, one, MemberTokens(rest), false, f);
      RunMember(m, s, stack, rest != [], f);
      RunMembers(rest, Run(s, one, rest != [], f).0, stack, f);
      RenderMember(members, f);
    }
  }

  lemma RenderMember(members: seq<Member>, f: Text -> Text)
    requires members != []
    ensures RenderMembers(Rewrite(Obj(members), f).members)
         == [Value(Str(f(members[0].key))), Colon]
            + (Render(Rewrite(members[0].value, f)) + CommaIf(members[1..] != []))
          + RenderMembers(Rewrite(Obj(members[1..]), f).members)
  {
    RewriteMembers(members, f);
    var key, value := [Value(Str(f(members[0].key))), Colon], Render(Rewrite(members[0].value, f));
    assert key + value + CommaIf(members[1..] != []) == key + (value + CommaIf(members[1..] != []));
  }

  /** A key, rewritten, and its value. */
  lemma {:induction false} RunMember(m: Member, s: State, stack: seq<bool>, more: bool, f: Text -> Text)
    requires Agrees(s.delimiters, stack) && stack != [] && stack[|stack| - 1] && IsKey(s)
    requires |stack| + Depth(m.value) <= 64
    ensures var r := Run(s, [Scalar(Str(m.key))] + Tokens(m.value), more, f);
            && r.1 == [Value(Str(f(m.key))), Colon] + (Render(Rewrite(m.value, f)) + CommaIf(more))
            && Agrees(r.0.delimiters, stack) && IsKey(r.0)
    decreases m.value, 2
  {
    var key := [Scalar(Str(m.key))];
    var step := Step(s, key[0], true, f);
    RunConcat(s, key, Tokens(m.value), more, f);
    assert key[1..] == [];
    assert Run(s, key, true, f) == (step.0, step.1 + []);
    assert step.1 + [] == step.1 == [Value(Str(f(m.key))), Colon];
    RunValue(m.value, step.0, stack, more, f);
  }

  lemma RewriteMembers(members: seq<Member>, f: Text -> Text)
    ensures var r := Rewrite(Obj(members), f).members;
            members != [] ==> r[0] == Member(f(members[0].key), Rewrite(members[0].value, f))
                              && r[1..] == Rewrite(Obj(members[1..]), f).members
  {
  }

  /** A value nested at most 64 deep comes out with every key rewritten and everything else in place. */
  lemma {:induction false} ChangesExactlyTheKeys(v: Json, f: Text -> Text)
    requires Depth(v) <= 64
    ensures Run(START, Tokens(v), false, f).1 == Render(Rewrite(v, f))
  {
    RunValue(v, START, [], false, f);
    assert Render(Rewrite(v, f)) + [] == Render(Rewrite(v, f));
  }

  lemma {:induction false} RewriteNothing(v: Json, f: Text -> Text)
    requires forall t :: f(t) == t
    ensures Rewrite(v, f) == v
  {
    match v
    case Arr(items) =>
      forall i | 0 <= i < |items| ensures Rewrite(items[i], f) == items[i] { RewriteNothing(items[i], f); }
    case Obj(members) =>
      forall i | 0 <= i < |members| ensures Rewrite(members[i].value, f) == members[i].value {
        RewriteNothing(members[i].value, f);
      }
    case _ =>
  }

  /** With nothing to rewrite the value itself comes out. */
  lemma {:induction false} IdentityReproduces(v: Json, f: Text -> Text)
    requires Depth(v) <= 64 && forall t :: f(t) == t
    ensures Run(START, Tokens(v), false, f).1 == Render(v)
  {
    ChangesExactlyTheKeys(v, f);
    RewriteNothing(v, f);
  }

  /** On every key of the value, applying f again changes nothing. */
  ghost predicate Settles(v: Json, f: Text -> Text) {
    match v
    case Arr(items) => forall i | 0 <= i < |items| :: Settles(items[i], f)
    case Obj(members) =>
      forall i | 0 <= i < |members| :: f(f(members[i].key)) == f(members[i].key) && Settles(members[i].value, f)
    case _ => true
  }

  lemma {:induction false} RewriteTwice(v: Json, f: Text -> Text)
    requires Settles(v, f)
    ensures Rewrite(Rewrite(v, f), f) == Rewrite(v, f)
  {
    match v
    case Arr(items) =>
      forall i | 0 <= i < |items| ensures Rewrite(Rewrite(items[i], f), f) == Rewrite(items[i], f) {
        RewriteTwice(items[i], f);
      }
    case Obj(members) =>
      forall i | 0 <= i < |members|
        ensures Rewrite(Rewrite(members[i].value, f), f) == Rewrite(members[i].value, f)
      {
        RewriteTwice(members[i].value, f);
      }
    case _ =>
  }

  lemma {:induction false} RewriteDepth(v: Json, f: Text -> Text)
    ensures Depth(Rewrite(v, f)) == Depth(v)
    decreases v, 1
  {
    match v
    case Arr(items) => RewriteItemsDepth(items, f);
    case Obj(members) => RewriteMembersDepth(members, f);
    case _ =>
  }

  lemma {:induction false} RewriteItemsDepth(items: seq<Json>, f: Text -> Text)
    ensures ItemsDepth(Rewrite(Arr(items), f).items) == ItemsDepth(items)
    decreases items, 0
  {
    if items != [] {
      RewriteDepth(items[0], f);
      RewriteItemsDepth(items[1..], f);
      RewriteItems(items, f);
    }
  }

  lemma {:induction false} RewriteMembersDepth(members: seq<Member>, f: Text -> Text)
    ensures MembersDepth(Rewrite(Obj(members), f).members) == MembersDepth(members)
    decreases members, 0
  {
    if members != [] {
      RewriteDepth(members[0].value, f);
      RewriteMembersDepth(members[1..], f);
      RewriteMembers(members, f);
    }
  }

  /** A second pass over the result of the first changes nothing. */
  lemma {:induction false} SecondPassChangesNothing(v: Json, f: Text -> Text)
    requires Depth(v) <= 64 && Settles(v, f)
    ensures Run(START, Tokens(Rewrite(v, f)), false, f).1 == Render(Rewrite(v, f))
  {
    RewriteDepth(v, f);
    ChangesExactlyTheKeys(Rewrite(v, f), f);
    RewriteTwice(v, f);
  }

  // ----- one container more -----

  function Nest(n: nat): Json {
    if n == 0 then Null else Arr([Nest(n - 1)])
  }

  /** The bits after n arrays were opened and closed. */
  function Churned(d: int, n: nat): int
    decreases n
  {
    if n == 0 then d else Popped(Churned(Pushed(d, false), n - 1))
  }

  lemma {:induction false} NestDepth(n: nat)
    ensures Depth(Nest(n)) == n
  {
    if n > 0 {
      NestDepth(n - 1);
      assert [Nest(n - 1)][1..] == [];
      assert ItemsDepth([Nest(n - 1)]) == Max(Depth(Nest(n - 1)), ItemsDepth([Nest(n - 1)][1..])) == n - 1;
    }
  }

  lemma {:induction false} RunNest(n: nat, s: State, after: bool, f: Text -> Text)
    requires !IsKey(s)
    ensures Run(s, Tokens(Nest(n)), after, f).0.delimiters == Churned(s.delimiters, n)
    ensures n > 0 ==> Run(s, Tokens(Nest(n)), after, f).0.isMap == (Churned(s.delimiters, n) % 2 == 1)
  {
    if n == 0 {
      assert [Scalar(Null)][1..] == [];
    } else {
      var inner := Tokens(Nest(n - 1));
      var tokens := [Open(false)] + inner + [Close(false)];
      assert ItemTokens([Nest(n - 1)]) == inner by { assert [Nest(n - 1)][1..] == [] && inner + [] == inner; }
      assert tokens[1..] == inner + [Close(false)];
      var s1 := Step(s, Open(false), true, f).0;
      RunNest(n - 1, s1, false, f);
      RunConcat(s1, inner, [Close(false)], after, f);
      assert [Close(false)][1..] == [];
    }
  }

  /** Pushing 2^k through the top of 64 bits leaves nothing. */
  lemma {:induction false} ChurnedAway(k: nat, n: nat)
    requires k <= 64 && n == 64 - k
    ensures k <= 62 ==> Churned(Pow2(k), n) == 0
    ensures k == 63 ==> Churned(-0x8000_0000_0000_0000, n) == 0
    ensures k == 64 ==> Churned(0, n) == 0
    decreases n
  {
    if k == 63 {
      assert Pushed(-0x8000_0000_0000_0000, false) == 0;
      ChurnedAway(64, 0);
    } else if k == 62 {
      Pow63();
      assert Pow2(63) == 2 * Pow2(62);
      assert Pushed(Pow2(62), false) == -0x8000_0000_0000_0000;
      ChurnedAway(63, 1);
    } else if k < 62 {
      Pow63();
      Pow2Add(k + 1, 62 - k);
      Pow2Positive(62 - k);
      assert 2 * Pow2(k) == Pow2(k + 1) < 0x8000_0000_0000_0000;
      assert Pushed(Pow2(k), false) == Pow2(k + 1);
      ChurnedAway(k + 1, n - 1);
    }
  }

  lemma {:induction false} Pow2Positive(n: nat)
    ensures Pow2(n) >= 1
  {
    if n > 0 { Pow2Positive(n - 1); }
  }

  /** An object with a member nested n deep, and one more member after it. */
  function TooDeep(a: Text, n: nat, b: Text): Json {
    Obj([Member(a, Nest(n)), Member(b, Null)])
  }

  lemma TooDeepDepth(a: Text, n: nat, b: Text)
    ensures Depth(TooDeep(a, n, b)) == n + 1
  {
    NestDepth(n);
    var second := [Member(b, Null)];
    var members := [Member(a, Nest(n)), Member(b, Null)];
    assert members[1..] == second && second[1..] == [];
    assert MembersDepth(second) == Max(0, MembersDepth(second[1..])) == 0;
  }

  /** At 65 the outermost object is forgotten: its next key is taken for a value, whatever f does. */
  lemma {:induction false} TooDeepFails(a: Text, n: nat, b: Text, f: Text -> Text)
    requires n == 64
    ensures Depth(TooDeep(a, n, b)) == 65
    ensures Run(START, Tokens(TooDeep(a, n, b)), false, f).1 != Render(Rewrite(TooDeep(a, n, b), f))
  {
    TooDeepDepth(a, n, b);
    var out := TooDeepRun(a, n, b, f);
    TooDeepRendered(a, n, b, f);
  }

  lemma {:induction false} TooDeepRun(a: Text, n: nat, b: Text, f: Text -> Text) returns (out: seq<Piece>)
    requires n == 64
    ensures out == Run(START, Tokens(TooDeep(a, n, b)), false, f).1 && |out| >= 4 && out[|out| - 3] == Comma
  {
    TooDeepTokens(a, n, b);
    TooDeepHead(a, f);
    TooDeepMiddle(n, f);
    var deep, tail := Tokens(Nest(n)), [Scalar(Str(b)), Scalar(Null), Close(true)];
    FirstToken(Nest(n), tail, false);
    TooDeepTail(b, Run(State(true, false, 1), deep, true, f).0, f);
    out := RunLast([Open(true), Scalar(Str(a))], deep, tail, [Value(Str(b)), Comma, Value(Null), ClosePiece(true)], f);
  }

  lemma TooDeepMiddle(n: nat, f: Text -> Text)
    requires n == 64
    ensures var r := Run(State(true, false, 1), Tokens(Nest(n)), true, f).0; !r.isMap && r.delimiters == 0
  {
    RunNest(n, State(true, false, 1), true, f);
    ChurnedAway(0, n);
  }

  lemma RunLast(head: seq<Token>, deep: seq<Token>, tail: seq<Token>, last: seq<Piece>, f: Text -> Text)
    returns (out: seq<Piece>)
    requires More(deep + tail, false) && More(tail, false) && |last| == 4
    requires Run(Run(Run(START, head, true, f).0, deep, true, f).0, tail, false, f).1 == last
    ensures out == Run(START, head + (deep + tail), false, f).1 && |out| >= 4 && out[|out| - 3] == last[1]
  {
    RunThree(START, head, deep, tail, f);
    out := Run(START, head + (deep + tail), false, f).1;
    LastPieces(Run(START, head, true, f).1, Run(Run(START, head, true, f).0, deep, true, f).1, last);
  }

  lemma RunThree(s: State, head: seq<Token>, deep: seq<Token>, tail: seq<Token>, f: Text -> Text)
    requires More(deep + tail, false) && More(tail, false)
    ensures var first := Run(s, head, true, f);
            var second := Run(first.0, deep, true, f);
            Run(s, head + (deep + tail), false, f).1 == first.1 + (second.1 + Run(second.0, tail, false, f).1)
  {
    RunConcat(s, head, deep + tail, false, f);
    RunConcat(Run(s, head, true, f).0, deep, tail, false, f);
  }

  lemma LastPieces(a: seq<Piece>, b: seq<Piece>, c: seq<Piece>)
    requires |c| == 4
    ensures var out := a + (b + c); |out| >= 4 && out[|out| - 3] == c[1]
  {
  }

  lemma TooDeepHead(a: Text, f: Text -> Text)
    ensures Run(START, [Open(true), Scalar(Str(a))], true, f).0 == State(true, false, 1)
  {
    var head := [Open(true), Scalar(Str(a))];
    assert head[1..] == [Scalar(Str(a))] && head[1..][1..] == [];
    assert Pushed(0, true) == 1;
    var s := State(true, true, 1);
    assert Step(START, head[0], true, f).0 == s;
    assert Run(s, head[1..], true, f).0 == State(true, false, 1);
  }

  lemma TooDeepTokens(a: Text, n: nat, b: Text)
    ensures Tokens(TooDeep(a, n, b))
         == [Open(true), Scalar(Str(a))] + (Tokens(Nest(n)) + [Scalar(Str(b)), Scalar(Null), Close(true)])
  {
    var second := [Member(b, Null)];
    var members := [Member(a, Nest(n)), Member(b, Null)];
    assert members[1..] == second && second[1..] == [];
    assert MemberTokens(second) == [Scalar(Str(b))] + [Scalar(Null)] + MemberTokens(second[1..]);
    assert MemberTokens(members) == [Scalar(Str(a))] + Tokens(Nest(n)) + MemberTokens(second);
  }

  lemma TooDeepTail(b: Text, s: State, f: Text -> Text)
    requires !s.isMap && s.delimiters == 0
    ensures Run(s, [Scalar(Str(b)), Scalar(Null), Close(true)], false, f).1
         == [Value(Str(b)), Comma, Value(Null), ClosePiece(true)]
  {
    var two, one := [Scalar(Null), Close(true)], [Close(true)];
    var tail := [Scalar(Str(b))] + two;
    var s1 := State(false, !s.nextTokenIsKey, 0);
    var s2 := State(false, s.nextTokenIsKey, 0);
    assert tail[1..] == two && two[1..] == one && one[1..] == [];
    assert [Value(Str(b))] + [Comma] == [Value(Str(b)), Comma] && [Value(Null)] + [] == [Value(Null)];
    assert Step(s, tail[0], true, f) == (s1, [Value(Str(b)), Comma]);
    assert Step(s1, two[0], false, f) == (s2, [Value(Null)]);
    assert Run(s2, one, false, f).1 == [ClosePiece(true)];
    assert Run(s1, two, false, f).1 == [Value(Null), ClosePiece(true)];
    assert Run(s, tail, false, f).1 == [Value(Str(b)), Comma] + [Value(Null), ClosePiece(true)];
  }

  lemma TooDeepRendered(a: Text, n: nat, b: Text, f: Text -> Text)
    ensures var out := Render(Rewrite(TooDeep(a, n, b), f)); |out| >= 3 && out[|out| - 3] == Colon
  {
    var members := Rewrite(TooDeep(a, n, b), f).members;
    var second := members[1..];
    assert second == [Member(f(b), Null)] && second[1..] == [];
    assert RenderMembers(second) == [Value(Str(f(b))), Colon] + [Value(Null)] + [] + RenderMembers(second[1..]);
    var inner := RenderMembers(members);
    assert inner == [Value(Str(f(a))), Colon] + Render(members[0].value) + [Comma] + RenderMembers(second);
    assert inner[|inner| - 2] == Colon;
    assert Render(Obj(members)) == [OpenPiece(true)] + inner + [ClosePiece(true)];
  }

  // ----- camel case to snake case -----

  predicate Safe(c: int) {
    ('a' as int <= c <= 'z' as int) || ('0' as int <= c <= '9' as int) || c == '_' as int || c == '-' as int
      || c == ':' as int
  }

  /** What one code point becomes; the first one of a name gets no underscore before it. */
  function SnakeOf(c: int, first: bool): Text {
    if Safe(c) then [c] else (if first then [] else ['_' as int]) + [c + 'a' as int - 'A' as int]
  }

  function SnakeFrom(s: Text, first: bool): Text {
    if s == [] then [] else SnakeOf(s[0], first) + SnakeFrom(s[1..], false)
  }

  function Snake(s: Text): Text {
    SnakeFrom(s, true)
  }

  method CamelToSnake(s: Text) returns (b: Text)
    ensures b == Snake(s)
  {
    b := [];
    assert s[0..] == s;
    for i := 0 to |s|
      invariant b + SnakeFrom(s[i..], i == 0) == Snake(s)
    {
      ghost var was := b;
      SnakeStep(b, s, i);
      if Safe(s[i]) {
        b := b + [s[i]];
      } else {
        if i != 0 {
          b := b + ['_' as int];
        }
        b := b + [s[i] + 'a' as int - 'A' as int];
      }
      assert b == was + SnakeOf(s[i], i == 0);
    }
  }

  lemma SnakeStep(b: Text, s: Text, i: nat)
    requires i < |s|
    ensures b + SnakeFrom(s[i..], i == 0) == b + SnakeOf(s[i], i == 0) + SnakeFrom(s[i + 1..], false)
  {
    assert s[i..][1..] == s[i + 1..];
    assert SnakeFrom(s[i..], i == 0) == SnakeOf(s[i], i == 0) + SnakeFrom(s[i + 1..], false);
  }

  predicate AllSafe(s: Text) {
    forall i | 0 <= i < |s| :: Safe(s[i])
  }

  lemma {:induction false} SnakeLength(s: Text, first: bool)
    ensures |SnakeFrom(s, first)| >= |s|
    ensures AllSafe(s) ==> SnakeFrom(s, first) == s
    ensures !first && !AllSafe(s) ==> |SnakeFrom(s, first)| > |s|
  {
    if s != [] {
      SnakeLength(s[1..], false);
      if AllSafe(s) { assert [s[0]] + s[1..] == s; }
      if Safe(s[0]) && AllSafe(s[1..]) {
        forall i | 0 <= i < |s| ensures Safe(s[i]) { assert i > 0 ==> s[i] == s[1..][i - 1]; }
      }
    }
  }

  /** A name is left alone if and only if all its characters are safe. */
  lemma {:induction false} SnakeFixesSafe(s: Text)
    ensures Snake(s) == s <==> AllSafe(s)
  {
    SnakeLength(s, true);
    if s != [] && !AllSafe(s) {
      SnakeLength(s[1..], false);
      if Safe(s[0]) {
        assert !AllSafe(s[1..]) by {
          var i :| 0 <= i < |s| && !Safe(s[i]);
          assert s[1..][i - 1] == s[i];
        }
      } else {
        assert Snake(s)[0] == s[0] + 'a' as int - 'A' as int;
      }
    }
  }

  /** A character that is safe or becomes safe: for ASCII, the capital letters and the safe ones. */
  predicate Settling(c: int) {
    Safe(c) || Safe(c + 'a' as int - 'A' as int)
  }

  lemma {:induction false} SnakeSafe(s: Text, first: bool)
    ensures AllSafe(SnakeFrom(s, first)) <==> forall i | 0 <= i < |s| :: Settling(s[i])
  {
    if s != [] {
      var head, rest := SnakeOf(s[0], first), SnakeFrom(s[1..], false);
      SnakeSafe(s[1..], false);
      assert AllSafe(head) <==> Settling(s[0]) by {
        if !Safe(s[0]) { assert head[|head| - 1] == s[0] + 'a' as int - 'A' as int; }
      }
      assert AllSafe(head + rest) <==> AllSafe(head) && AllSafe(rest) by { SafeConcat(head, rest); }
      assert (forall i | 0 <= i < |s| :: Settling(s[i])) <==>
             Settling(s[0]) && (forall i | 0 <= i < |s[1..]| :: Settling(s[1..][i])) by { SettlingTail(s); }
    }
  }

  lemma SafeConcat(a: Text, b: Text)
    ensures AllSafe(a + b) <==> AllSafe(a) && AllSafe(b)
  {
    if AllSafe(a + b) {
      forall i | 0 <= i < |a| ensures Safe(a[i]) { assert (a + b)[i] == a[i]; }
      forall i | 0 <= i < |b| ensures Safe(b[i]) { assert (a + b)[|a| + i] == b[i]; }
    }
  }

  lemma SettlingTail(s: Text)
    requires s != []
    ensures (forall i | 0 <= i < |s| :: Settling(s[i])) <==>
            Settling(s[0]) && forall i | 0 <= i < |s[1..]| :: Settling(s[1..][i])
  {
    if Settling(s[0]) && forall i | 0 <= i < |s[1..]| :: Settling(s[1..][i]) {
      forall i | 0 <= i < |s| ensures Settling(s[i]) { assert i > 0 ==> s[1..][i - 1] == s[i]; }
    }
  }

  /** A second conversion changes nothing if and only if every character is safe or becomes safe. */
  lemma {:induction false} SnakeSettlesIff(s: Text)
    ensures Snake(Snake(s)) == Snake(s) <==> forall i | 0 <= i < |s| :: Settling(s[i])
  {
    SnakeFixesSafe(Snake(s));
    SnakeSafe(s, true);
  }

  /** Names of ASCII letters, digits, '_', '-' and ':' settle. */
  lemma AsciiNamesSettle(s: Text)
    requires forall i | 0 <= i < |s| :: Safe(s[i]) || 'A' as int <= s[i] <= 'Z' as int
    ensures Snake(Snake(s)) == Snake(s)
  {
    SnakeSettlesIff(s);
  }

  /** Takes an underscore with the letter after it back to a capital letter. */
  function Camel(s: Text): Text {
    if s == [] then []
    else if s[0] == '_' as int && |s| > 1 && 'a' as int <= s[1] <= 'z' as int then
      [s[1] + 'A' as int - 'a' as int] + Camel(s[2..])
    else [s[0]] + Camel(s[1..])
  }

  /** A name of ASCII letters and digits without underscores that does not start with a capital can be read back, so no
      two of them become the same. */
  lemma {:induction false} SnakeReadsBack(s: Text)
    requires s != [] ==> Safe(s[0])
    requires forall i | 0 <= i < |s| :: s[i] != '_' as int && (Safe(s[i]) || 'A' as int <= s[i] <= 'Z' as int)
    ensures Camel(Snake(s)) == s
  {
    if s != [] {
      TailReadsBack(s[1..]);
      assert Snake(s) == [s[0]] + SnakeFrom(s[1..], false) && Snake(s)[1..] == SnakeFrom(s[1..], false);
      assert [s[0]] + s[1..] == s;
    }
  }

  lemma {:induction false} TailReadsBack(s: Text)
    requires forall i | 0 <= i < |s| :: s[i] != '_' as int && (Safe(s[i]) || 'A' as int <= s[i] <= 'Z' as int)
    ensures Camel(SnakeFrom(s, false)) == s
  {
    if s != [] {
      var head, rest := SnakeOf(s[0], false), SnakeFrom(s[1..], false);
      TailReadsBack(s[1..]);
      assert (head + rest)[|head|..] == rest && [s[0]] + s[1..] == s;
    }
  }
}
