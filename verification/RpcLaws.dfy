/** Rendered calls come apart again exactly at the joints, whatever their arguments contain. */
module RpcLaws {
  import opened Bytes
  import opened RpcText

  // ----- What the scanner sees of a part -----

  function Toggle(b: byte, quoted: bool): bool {
    if b == QUOTE then !quoted else quoted
  }

  /** Whether the scanner is inside quotes behind `part`. */
  function QuotedBehind(part: Octets, quoted: bool): bool {
    if part == [] then quoted else QuotedBehind(part[1..], Toggle(part[0], quoted))
  }

  /** Whether the scanner cuts inside `part`. */
  predicate Cuts(part: Octets, quoted: bool) {
    part != [] && ((part[0] == SEMICOLON && !quoted) || Cuts(part[1..], Toggle(part[0], quoted)))
  }

  lemma {:induction false} ScanConcat(a: Octets, b: Octets, quoted: bool)
    ensures QuotedBehind(a + b, quoted) == QuotedBehind(b, QuotedBehind(a, quoted))
    ensures Cuts(a + b, quoted) <==> Cuts(a, quoted) || Cuts(b, QuotedBehind(a, quoted))
    decreases |a|
  {
    if a == [] {
      assert a + b == b;
    } else {
      assert (a + b)[1..] == a[1..] + b;
      ScanConcat(a[1..], b, Toggle(a[0], quoted));
    }
  }

  lemma OneByte(b: byte)
    ensures forall quoted :: QuotedBehind([b], quoted) == Toggle(b, quoted)
    ensures forall quoted :: Cuts([b], quoted) <==> b == SEMICOLON && !quoted
  {
    assert [b][1..] == [];
  }

  /** A quote switches the scanner over, doubled or not: a pair switches it over and back. */
  lemma QuoteToggles(s: Octets, i: nat, start: nat, quoted: bool)
    requires start <= i < |s| && s[i] == QUOTE
    ensures Split(s, i, start, quoted) == Split(s, i + 1, start, !quoted)
  {
  }

  lemma {:induction false} SplitPasses(s: Octets, i: nat, part: Octets, start: nat, quoted: bool)
    requires At(s, i, part) && start <= i && !Cuts(part, quoted)
    ensures i + |part| <= |s|
    ensures Split(s, i, start, quoted) == Split(s, i + |part|, start, QuotedBehind(part, quoted))
    decreases |part|
  {
    hide At;
    AtIn(s, i, part);
    if part != [] {
      assert part == [part[0]] + part[1..];
      AtSplit(s, i, [part[0]], part[1..]);
      AtByte(s, i, part, 0);
      if s[i] == QUOTE {
        QuoteToggles(s, i, start, quoted);
      }
      SplitPasses(s, i + 1, part[1..], start, Toggle(part[0], quoted));
    }
  }

  /** Where the scanner cuts inside a part, the statement ends there. */
  lemma {:induction false} SplitCuts(s: Octets, i: nat, part: Octets, start: nat, quoted: bool)
    requires At(s, i, part) && start <= i && Cuts(part, quoted)
    ensures
      var parts := Split(s, i, start, quoted);
      parts != [] && |parts[0]| < i + |part| - start
    decreases |part|
  {
    hide At;
    AtIn(s, i, part);
    assert part == [part[0]] + part[1..];
    AtSplit(s, i, [part[0]], part[1..]);
    AtByte(s, i, part, 0);
    if !(part[0] == SEMICOLON && !quoted) {
      if s[i] == QUOTE {
        QuoteToggles(s, i, start, quoted);
      }
      SplitCuts(s, i + 1, part[1..], start, Toggle(part[0], quoted));
    }
  }

  /** A statement that was not cut before `i` is at least as long as that. */
  lemma {:induction false} FirstReaches(s: Octets, i: nat, start: nat, quoted: bool)
    requires start <= i <= |s|
    ensures
      var parts := Split(s, i, start, quoted);
      parts != [] ==> |parts[0]| >= i - start
    decreases |s| - i
  {
    if i < |s| {
      if s[i] == QUOTE {
        QuoteToggles(s, i, start, quoted);
        FirstReaches(s, i + 1, start, !quoted);
      } else if s[i] != SEMICOLON || quoted {
        FirstReaches(s, i + 1, start, quoted);
      }
    }
  }

  // ----- Arguments -----

  /** Leaves the quoting as it is; seen from outside quotes it has no semicolon, from inside all of them. */
  predicate Balanced(part: Octets) {
    && !QuotedBehind(part, false) && QuotedBehind(part, true)
    && !Cuts(part, false) && (Cuts(part, true) <==> SEMICOLON in part)
  }

  lemma BalancedConcat(a: Octets, b: Octets)
    requires Balanced(a) && Balanced(b)
    ensures Balanced(a + b)
  {
    hide Cuts, QuotedBehind;
    ScanConcat(a, b, false);
    ScanConcat(a, b, true);
  }

  lemma {:induction false} PlainBalanced(part: Octets)
    requires IsPlain(part)
    ensures Balanced(part)
  {
    if part != [] {
      assert part == [part[0]] + part[1..];
      PlainBalanced(part[1..]);
    }
  }

  /** Escaped text: quotes come in pairs, so nothing is cut from inside and every semicolon from outside. */
  lemma {:induction false} EscapeScans(text: Octets)
    ensures
      var e := Escape(text);
      && !QuotedBehind(e, false) && QuotedBehind(e, true)
      && !Cuts(e, true) && (Cuts(e, false) <==> SEMICOLON in e)
  {
    if text != [] {
      var first, rest := if text[0] == QUOTE then [QUOTE, QUOTE] else [text[0]], Escape(text[1..]);
      EscapeScans(text[1..]);
      OneEscaped(text[0]);
      ScanConcat(first, rest, false);
      ScanConcat(first, rest, true);
    }
  }

  lemma OneEscaped(b: byte)
    ensures
      var e := if b == QUOTE then [QUOTE, QUOTE] else [b];
      && !QuotedBehind(e, false) && QuotedBehind(e, true)
      && !Cuts(e, true) && (Cuts(e, false) <==> SEMICOLON in e)
  {
    OneByte(b);
    if b == QUOTE {
      assert [QUOTE, QUOTE] == [QUOTE] + [QUOTE];
      ScanConcat([QUOTE], [QUOTE], false);
      ScanConcat([QUOTE], [QUOTE], true);
    }
  }

  lemma QuotedBalanced(text: Octets)
    ensures Balanced(Quoted(text))
  {
    var e := Escape(text);
    EscapeScans(text);
    OneByte(QUOTE);
    hide Cuts, QuotedBehind, Escape;
    ScanConcat(e, [QUOTE], false);
    ScanConcat(e, [QUOTE], true);
    ScanConcat([QUOTE], e + [QUOTE], false);
    ScanConcat([QUOTE], e + [QUOTE], true);
  }

  lemma {:induction false} EscapePlain(text: Octets)
    requires IsPlain(text)
    ensures Escape(text) == text
  {
    if text != [] {
      assert text[0] in text && forall b | b in text[1..] :: b in text;
      EscapePlain(text[1..]);
    }
  }

  /** No literal, whatever its text, changes the quoting or cuts a statement from outside quotes. */
  lemma LiteralBalanced(literal: Literal)
    requires Good(literal)
    ensures Balanced(Render(literal))
  {
    hide Balanced, Quoted;
    match literal
    case Text(text) =>
      PlainBalanced([N]);
      QuotedBalanced(text);
      BalancedConcat([N], Quoted(text));
    case Guid(digits) =>
      EscapePlain(digits);
      GuidIsQuoted(digits);
      QuotedBalanced(digits);
    case Plain(bytes) =>
      PlainBalanced(bytes);
  }

  lemma GuidIsQuoted(digits: Octets)
    requires Escape(digits) == digits
    ensures [QUOTE] + (digits + [QUOTE]) == Quoted(digits)
  {
  }

  lemma {:induction false} ArgumentsBalanced(literals: seq<Literal>)
    requires forall k | 0 <= k < |literals| :: Good(literals[k])
    ensures Balanced(Join(RenderAll(literals), COMMA))
  {
    hide Balanced, Render, Good;
    PlainBalanced([]);
    if literals != [] {
      LiteralBalanced(literals[0]);
      if |literals| > 1 {
        var rest := Join(RenderAll(literals[1..]), COMMA);
        assert RenderAll(literals)[1..] == RenderAll(literals[1..]);
        ArgumentsBalanced(literals[1..]);
        PlainBalanced(COMMA);
        BalancedConcat(COMMA, rest);
        BalancedConcat(Render(literals[0]), COMMA + rest);
      }
    }
  }

  // ----- Statements -----

  /** The statement leaves the quoting as its name does, and is cut in its name or, quoted by it, at any semicolon. */
  lemma StatementScans(b: Batch)
    requires GoodBatch(b)
    ensures QuotedBehind(Statement(b), false) == QuotedBehind(b.procedure, false)
    ensures Cuts(Statement(b), false) <==>
            Cuts(b.procedure, false) || (QuotedBehind(b.procedure, false) && SEMICOLON in Arguments(b))
  {
    ArgumentsBalanced(b.arguments);
    PlainBalanced(EXEC);
    PlainBalanced([SPACE]);
    PlainBalanced([]);
    BalancedConcat([SPACE], Arguments(b));
    hide Cuts, QuotedBehind, Arguments;
    var tail := if Arguments(b) == [] then [] else [SPACE] + Arguments(b);
    ScanConcat(EXEC, b.procedure + tail, false);
    ScanConcat(b.procedure, tail, false);
  }

  /**
   The call stays one statement: its name is not cut and, unless nothing
   follows that a semicolon could cut, closes the quotes it opens.
   */
  predicate Whole(b: Batch, last: bool) {
    !Cuts(b.procedure, false) && (QuotedBehind(b.procedure, false) ==> last && SEMICOLON !in Arguments(b))
  }

  predicate AllWhole(batches: seq<Batch>) {
    forall k | 0 <= k < |batches| :: Whole(batches[k], k == |batches| - 1)
  }

  lemma AllWholeStep(batches: seq<Batch>)
    requires |batches| > 1
    ensures AllWhole(batches) <==> Whole(batches[0], false) && AllWhole(batches[1..])
  {
    hide Whole;
    assert batches == [batches[0]] + batches[1..];
    if AllWhole(batches) {
      forall k | 0 <= k < |batches[1..]| ensures Whole(batches[1..][k], k == |batches[1..]| - 1) {
        assert Whole(batches[k + 1], k + 1 == |batches| - 1);
      }
    }
  }

  /** The statements as they come out of the joined text: all but the first keep the separator's blank. */
  function Blanked(batches: seq<Batch>): seq<Octets> {
    seq(|batches|, i requires 0 <= i < |batches| => [SPACE] + Statement(batches[i]))
  }

  /** The last statement of a request. */
  lemma LastSplits(s: Octets, i: nat, b: Batch, start: nat)
    requires GoodBatch(b) && At(s, i, Statement(b)) && i + |Statement(b)| == |s| && start <= i
    ensures Split(s, i, start, false) == [s[start..i] + Statement(b)] <==> Whole(b, true)
  {
    hide At, Split, Cuts, QuotedBehind, Statement;
    StatementScans(b);
    StatementStarts(b);
    SliceAt(s, start, i, Statement(b));
    if Cuts(Statement(b), false) {
      SplitCuts(s, i, Statement(b), start, false);
    } else {
      SplitPasses(s, i, Statement(b), start, false);
      SplitEnds(s, start, QuotedBehind(Statement(b), false));
    }
  }

  /** A statement that is not whole ends too early or too late. */
  lemma NotWholeMisses(s: Octets, i: nat, b: Batch, start: nat)
    requires GoodBatch(b) && At(s, i, Statement(b)) && i + |Statement(b)| < |s| && start <= i
    requires s[i + |Statement(b)|] == SEMICOLON && !Whole(b, false)
    ensures
      var parts := Split(s, i, start, false);
      parts == [] || |parts[0]| != i + |Statement(b)| - start
  {
    hide At, Split, Cuts, QuotedBehind, Statement;
    StatementScans(b);
    var j := i + |Statement(b)|;
    if Cuts(Statement(b), false) {
      SplitCuts(s, i, Statement(b), start, false);
    } else {
      SplitPasses(s, i, Statement(b), start, false);
      QuotedJoint(s, j, start);
      FirstReaches(s, j + 1, start, true);
    }
  }

  lemma QuotedJoint(s: Octets, j: nat, start: nat)
    requires start <= j < |s| && s[j] == SEMICOLON
    ensures Split(s, j, start, true) == Split(s, j + 1, start, true)
  {
  }

  lemma WholeSplits(s: Octets, i: nat, b: Batch, start: nat)
    requires GoodBatch(b) && At(s, i, Statement(b)) && start <= i && Whole(b, false)
    requires At(s, i + |Statement(b)|, THEN)
    ensures
      var j := i + |Statement(b)|;
      && j + 2 <= |s| && s[j + 1..j + 2] == [SPACE]
      && Split(s, i, start, false) == [s[start..i] + Statement(b)] + Split(s, j + 2, j + 1, false)
  {
    hide At, Split, Cuts, QuotedBehind, Statement;
    StatementScans(b);
    var j := i + |Statement(b)|;
    AtByte(s, j, THEN, 0);
    AtByte(s, j, THEN, 1);
    AtIn(s, j, THEN);
    SplitPasses(s, i, Statement(b), start, false);
    SliceAt(s, start, i, Statement(b));
    SplitHere(s, j, start);
  }

  lemma {:induction false} JoinSplits(s: Octets, i: nat, batches: seq<Batch>, start: nat)
    requires batches != [] && forall k | 0 <= k < |batches| :: GoodBatch(batches[k])
    requires At(s, i, Join(Statements(batches), THEN)) && i + |Join(Statements(batches), THEN)| == |s| && start <= i
    ensures Split(s, i, start, false) == [s[start..i] + Statement(batches[0])] + Blanked(batches[1..]) <==>
            AllWhole(batches)
    decreases |batches|
  {
    hide At, Split, GoodBatch, Statement, Whole;
    var first := Statement(batches[0]);
    if |batches| == 1 {
      LastSplits(s, i, batches[0], start);
      assert Blanked(batches[1..]) == [];
      assert [s[start..i] + first] + [] == [s[start..i] + first];
    } else {
      var rest := Join(Statements(batches[1..]), THEN);
      assert Statements(batches)[1..] == Statements(batches[1..]);
      AtSplit(s, i, first, THEN + rest);
      var j := i + |first|;
      AtSplit(s, j, THEN, rest);
      AllWholeStep(batches);
      SliceAt(s, start, i, first);
      if Whole(batches[0], false) {
        WholeSplits(s, i, batches[0], start);
        JoinSplits(s, j + 2, batches[1..], j + 1);
        assert batches[1..][1..] == batches[2..];
        assert Blanked(batches[1..]) == [[SPACE] + Statement(batches[1])] + Blanked(batches[2..]);
        SameTails(s[start..i] + first, Split(s, j + 2, j + 1, false), Blanked(batches[1..]));
      } else {
        AtByte(s, j, THEN, 0);
        AtIn(s, j, THEN);
        NotWholeMisses(s, i, batches[0], start);
      }
    }
  }

  lemma SameTails(x: Octets, a: seq<Octets>, b: seq<Octets>)
    ensures [x] + a == [x] + b <==> a == b
  {
    assert a == ([x] + a)[1..] && b == ([x] + b)[1..];
  }

  lemma StatementStarts(b: Batch)
    ensures Statement(b) != []
  {
  }

  lemma SliceAt(s: Octets, start: nat, i: nat, part: Octets)
    requires start <= i && At(s, i, part)
    ensures i + |part| <= |s| && s[start..i + |part|] == s[start..i] + part
  {
  }

  lemma SplitEnds(s: Octets, start: nat, quoted: bool)
    requires start <= |s|
    ensures start < |s| ==> Split(s, |s|, start, quoted) == [s[start..|s|]]
  {
    assert s[start..] == s[start..|s|];
  }

  /** A joint: the statement ends, and the next one begins with the blank. */
  lemma SplitHere(s: Octets, j: nat, start: nat)
    requires start <= j && j + 2 <= |s| && s[j] == SEMICOLON && s[j + 1] == SPACE
    ensures Split(s, j, start, false) == [s[start..j]] + Split(s, j + 2, j + 1, false)
  {
    assert Split(s, j + 1, j + 1, false) == Split(s, j + 2, j + 1, false);
  }

  /** What the scanner should find in a request: one statement for each batch that is executed, in order. */
  function Expected(batches: seq<Batch>): seq<Octets> {
    var executed := Executed(batches);
    if executed == [] then [] else [Statement(executed[0])] + Blanked(executed[1..])
  }

  /**
   Rendering is quote-safe: whatever the arguments hold, the request comes apart
   into one statement for each executed call, exactly if every name is whole.
   */
  lemma {:induction false} RpcSplits(batches: seq<Batch>)
    requires forall k | 0 <= k < |batches| :: GoodBatch(batches[k])
    ensures Split(RpcSql(batches), 0, 0, false) == Expected(batches) <==> AllWhole(Executed(batches))
  {
    hide GoodBatch, Statement;
    var executed, s := Executed(batches), RpcSql(batches);
    ExecutedGood(batches);
    if executed == [] {
      assert s == [];
    } else {
      assert s[0..|s|] == s;
      JoinSplits(s, 0, executed, 0);
      assert s[0..0] + Statement(executed[0]) == Statement(executed[0]);
    }
  }

  lemma {:induction false} ExecutedGood(batches: seq<Batch>)
    requires forall k | 0 <= k < |batches| :: GoodBatch(batches[k])
    ensures forall k | 0 <= k < |Executed(batches)| :: GoodBatch(Executed(batches)[k])
  {
    hide GoodBatch;
    if batches != [] {
      ExecutedGood(batches[1..]);
    }
  }

  /** A name without quotes is whole exactly if it has no semicolon, wherever the call stands. */
  lemma {:induction false} UnquotedName(name: Octets)
    requires QUOTE !in name
    ensures !QuotedBehind(name, false) && (Cuts(name, false) <==> SEMICOLON in name)
  {
    if name != [] {
      assert name == [name[0]] + name[1..];
      UnquotedName(name[1..]);
    }
  }

  lemma UnquotedNamesSplit(batches: seq<Batch>)
    requires forall k | 0 <= k < |batches| :: GoodBatch(batches[k])
    requires forall k | 0 <= k < |Executed(batches)| :: QUOTE !in Executed(batches)[k].procedure
    ensures Split(RpcSql(batches), 0, 0, false) == Expected(batches) <==>
            forall k | 0 <= k < |Executed(batches)| :: SEMICOLON !in Executed(batches)[k].procedure
  {
    hide Split, RpcSql, Expected, Executed, GoodBatch, Cuts, QuotedBehind;
    RpcSplits(batches);
    var executed := Executed(batches);
    forall k | 0 <= k < |executed|
      ensures Whole(executed[k], k == |executed| - 1) <==> SEMICOLON !in executed[k].procedure
    {
      UnquotedName(executed[k].procedure);
    }
  }

  /** A semicolon in the name breaks a request, but not one between quotes; a stray quote breaks all but the last call. */
  lemma NameExamples()
    ensures Split(RpcSql([Call([SEMICOLON])]), 0, 0, false) != Expected([Call([SEMICOLON])])
    ensures
      var quoted := Call([QUOTE, SEMICOLON, QUOTE]);
      Split(RpcSql([quoted]), 0, 0, false) == Expected([quoted])
    ensures
      var stray := Call([QUOTE]);
      && Split(RpcSql([stray]), 0, 0, false) == Expected([stray])
      && Split(RpcSql([stray, stray]), 0, 0, false) != Expected([stray, stray])
  {
    hide Split, RpcSql, Expected;
    var cut, quoted, stray := Call([SEMICOLON]), Call([QUOTE, SEMICOLON, QUOTE]), Call([QUOTE]);
    AllExecuted([cut]);
    AllExecuted([quoted]);
    AllExecuted([stray]);
    AllExecuted([stray, stray]);
    RpcSplits([cut]);
    RpcSplits([quoted]);
    RpcSplits([stray]);
    RpcSplits([stray, stray]);
    OneByte(QUOTE);
    OneByte(SEMICOLON);
    hide Cuts, QuotedBehind;
    assert quoted.procedure == [QUOTE] + ([SEMICOLON] + [QUOTE]);
    ScanConcat([SEMICOLON], [QUOTE], true);
    ScanConcat([QUOTE], [SEMICOLON] + [QUOTE], false);
    assert !Whole([cut][0], true) && Whole(quoted, true) && Whole(stray, true);
    assert !Whole([stray, stray][0], false);
  }

  /** A call without arguments. */
  function Call(name: Octets): Batch {
    Batch(name, false, [])
  }

  lemma {:induction false} AllExecuted(batches: seq<Batch>)
    requires forall k | 0 <= k < |batches| :: !batches[k].noExecute
    ensures Executed(batches) == batches
  {
    if batches != [] {
      AllExecuted(batches[1..]);
    }
  }

  // ----- Reading a literal back -----

  /** No quote stands at position `i`, so a quote before it ends a literal. */
  predicate NoQuoteAt(s: Octets, i: nat) {
    i < |s| ==> s[i] != QUOTE
  }

  /** An open literal from `i` on reads as `text` exactly if `text` stands there escaped and closed. */
  lemma {:induction false} UnquoteExact(s: Octets, i: nat, text: Octets)
    ensures Unquote(s, i) == Some(text) <==>
            At(s, i, Escape(text) + [QUOTE]) && NoQuoteAt(s, i + |Escape(text)| + 1)
    decreases |text|
  {
    hide At, Unquote, NoQuoteAt;
    if text == [] {
      assert Escape(text) + [QUOTE] == [QUOTE];
      ClosedAtOnce(s, i);
    } else {
      var first, rest := if text[0] == QUOTE then [QUOTE, QUOTE] else [text[0]], Escape(text[1..]);
      ConcatAssoc(first, rest, [QUOTE]);
      UnquoteExact(s, i + |first|, text[1..]);
      AtJoins(s, i, first, rest + [QUOTE]);
      UnquoteStep(s, i, text);
    }
  }

  lemma ClosedAtOnce(s: Octets, i: nat)
    ensures Unquote(s, i) == Some([]) <==> At(s, i, [QUOTE]) && NoQuoteAt(s, i + 1)
  {
    if i < |s| {
      assert s[i..i + 1] == [s[i]];
    }
  }

  lemma AtJoins(s: Octets, p: nat, a: Octets, b: Octets)
    ensures At(s, p, a + b) <==> At(s, p, a) && At(s, p + |a|, b)
  {
    if At(s, p, a + b) {
      AtSplit(s, p, a, b);
    } else if p + |a| + |b| <= |s| {
      assert s[p..p + |a + b|] == s[p..p + |a|] + s[p + |a|..p + |a| + |b|];
    }
  }

  lemma UnquoteStep(s: Octets, i: nat, text: Octets)
    requires text != []
    ensures
      var first := if text[0] == QUOTE then [QUOTE, QUOTE] else [text[0]];
      Unquote(s, i) == Some(text) <==> At(s, i, first) && Unquote(s, i + |first|) == Some(text[1..])
  {
    var first := if text[0] == QUOTE then [QUOTE, QUOTE] else [text[0]];
    assert text == [text[0]] + text[1..];
    if i + |first| <= |s| {
      var there := s[i..i + |first|];
      assert there[0] == s[i] && (|first| == 2 ==> there[1] == s[i + 1]);
      if |first| == 2 {
        assert there == first <==> s[i] == QUOTE && s[i + 1] == QUOTE;
      } else {
        assert there == first <==> s[i] == text[0];
      }
    }
  }

  lemma {:induction false} QuoteFound(s: Octets, p: nat, q: nat)
    requires p <= q < |s| && s[q] == QUOTE && QUOTE !in s[p..q]
    ensures FirstQuote(s, p) == Some(q)
    decreases q - p
  {
    if p < q {
      assert s[p] in s[p..q];
      assert forall b | b in s[p + 1..q] :: b in s[p..q];
      QuoteFound(s, p + 1, q);
    }
  }

  /** The marker's first occurrence is found, if there is one. */
  lemma {:induction false} FindIsFirst(s: Octets, marker: Octets, p: nat)
    ensures
      var r := Find(s, marker, p);
      && (r.Some? ==> p <= r.value && At(Upper(s), r.value, marker))
      && forall k | p <= k <= |s| && (r.Some? ==> k < r.value) :: !At(Upper(s), k, marker)
    decreases |s| - p
  {
    hide At, Upper;
    if p <= |s| && !At(Upper(s), p, marker) {
      FindIsFirst(s, marker, p + 1);
    }
  }

  /** The first quote behind a marker opens the literal that is read: the text that stands there, and nothing else. */
  lemma LiteralRecovered(s: Octets, marker: Octets, m: nat, q: nat, text: Octets)
    requires Find(s, marker, 0) == Some(m)
    requires m + |marker| <= q < |s| && s[q] == QUOTE && QUOTE !in s[m + |marker|..q]
    ensures QuotedAfter(s, marker) == Some(text) <==> At(s, q, Quoted(text)) && NoQuoteAt(s, q + |Quoted(text)|)
  {
    hide Find, At, Unquote, Quoted, NoQuoteAt;
    ReadsFrom(s, marker, m, q);
    ClosedExactly(s, q, text);
  }

  lemma ReadsFrom(s: Octets, marker: Octets, m: nat, q: nat)
    requires Find(s, marker, 0) == Some(m)
    requires m + |marker| <= q < |s| && s[q] == QUOTE && QUOTE !in s[m + |marker|..q]
    ensures QuotedAfter(s, marker) == Unquote(s, q + 1)
  {
    hide Find, FirstQuote, Unquote;
    QuoteFound(s, m + |marker|, q);
  }

  lemma ClosedExactly(s: Octets, q: nat, text: Octets)
    requires q < |s| && s[q] == QUOTE
    ensures Unquote(s, q + 1) == Some(text) <==> At(s, q, Quoted(text)) && NoQuoteAt(s, q + |Quoted(text)|)
  {
    hide At, Unquote, Escape, NoQuoteAt;
    UnquoteExact(s, q + 1, text);
    AtJoins(s, q, [QUOTE], Escape(text) + [QUOTE]);
    OneThere(s, q);
    assert |Quoted(text)| == 1 + (|Escape(text)| + 1);
    assert q + 1 + |Escape(text)| + 1 == q + |Quoted(text)|;
  }

  lemma OneThere(s: Octets, q: nat)
    requires q < |s|
    ensures At(s, q, [s[q]])
  {
  }

  /** The arguments before the `k`th as they are rendered, each with its comma. */
  function Earlier(literals: seq<Literal>, k: nat): Octets
    requires k <= |literals|
  {
    if k == 0 then [] else Render(literals[0]) + (COMMA + Earlier(literals[1..], k - 1))
  }

  /** Everything in front of the `k`th argument. */
  function Front(b: Batch, k: nat): Octets
    requires k <= |b.arguments|
  {
    EXEC + (b.procedure + ([SPACE] + Earlier(b.arguments, k)))
  }

  /**
   From the call to the handler: the `k`th argument, if it is a text, is what is
   read behind a marker in front of it, whatever the text contains, if no quote
   stands between the two.
   */
  lemma ArgumentRecovered(b: Batch, k: nat, text: Octets, marker: Octets, m: nat)
    requires k < |b.arguments| && b.arguments[k] == Text(text)
    requires Find(Statement(b), marker, 0) == Some(m) && m + |marker| <= |Front(b, k)|
    requires QUOTE !in Front(b, k)[m + |marker|..]
    ensures QuotedAfter(Statement(b), marker) == Some(text)
  {
    hide Find, QuotedAfter, Quoted, Statement, NoQuoteAt, Front;
    var front := Front(b, k) + [N];
    var tail := StatementAround(b, k, text);
    NextPlain(Front(b, k), m + |marker|);
    StandsBetween(front, Quoted(text), tail, m + |marker|);
    LiteralRecovered(Statement(b), marker, m, |front|, text);
  }

  /** In particular if the name and the arguments before it hold no quote. */
  lemma {:induction false} EarlierUnquoted(b: Batch, k: nat)
    requires k <= |b.arguments| && QUOTE !in b.procedure
    requires forall j | 0 <= j < k :: QUOTE !in Render(b.arguments[j])
    ensures QUOTE !in Front(b, k)
  {
    hide Render;
    UnquotedArguments(b.arguments, k);
  }

  lemma {:induction false} UnquotedArguments(literals: seq<Literal>, k: nat)
    requires k <= |literals| && forall j | 0 <= j < k :: QUOTE !in Render(literals[j])
    ensures QUOTE !in Earlier(literals, k)
    decreases k
  {
    hide Render;
    if k > 0 {
      forall j | 0 <= j < k - 1 ensures QUOTE !in Render(literals[1..][j]) {
        assert literals[1..][j] == literals[j + 1];
      }
      UnquotedArguments(literals[1..], k - 1);
    }
  }

  lemma NextPlain(front: Octets, p: nat)
    requires p <= |front| && QUOTE !in front[p..]
    ensures QUOTE !in (front + [N])[p..]
  {
    assert (front + [N])[p..] == front[p..] + [N];
  }

  lemma StandsBetween(front: Octets, literal: Octets, tail: Octets, p: nat)
    requires p <= |front| && QUOTE !in front[p..] && literal != [] && literal[0] == QUOTE && NoQuoteAt(tail, 0)
    ensures
      var s := front + literal + tail;
      && s[|front|] == QUOTE && QUOTE !in s[p..|front|]
      && At(s, |front|, literal) && NoQuoteAt(s, |front| + |literal|)
  {
    var s := front + literal + tail;
    assert s[p..|front|] == front[p..];
    assert s[|front|..|front| + |literal|] == literal;
  }

  lemma StatementAround(b: Batch, k: nat, text: Octets) returns (tail: Octets)
    requires k < |b.arguments| && b.arguments[k] == Text(text)
    ensures Statement(b) == Front(b, k) + [N] + Quoted(text) + tail
    ensures NoQuoteAt(tail, 0) && Quoted(text) != [] && Quoted(text)[0] == QUOTE
  {
    assert Quoted(text)[0] == QUOTE;
    tail := ArgumentsAround(b.arguments, k);
    hide Quoted, Earlier, Join, RenderAll;
    var earlier := Earlier(b.arguments, k);
    assert Arguments(b) == earlier + (([N] + Quoted(text)) + tail);
    Regroup(b.procedure, earlier, Quoted(text), tail);
  }

  lemma Regroup(name: Octets, earlier: Octets, literal: Octets, tail: Octets)
    ensures EXEC + (name + ([SPACE] + (earlier + (([N] + literal) + tail)))) ==
            EXEC + (name + ([SPACE] + earlier)) + [N] + literal + tail
  {
  }

  lemma {:induction false} ArgumentsAround(literals: seq<Literal>, k: nat) returns (tail: Octets)
    requires k < |literals|
    ensures Join(RenderAll(literals), COMMA) == Earlier(literals, k) + (Render(literals[k]) + tail)
    ensures NoQuoteAt(tail, 0)
    decreases k
  {
    hide Render;
    var all := RenderAll(literals);
    assert all[1..] == RenderAll(literals[1..]);
    if k == 0 {
      tail := if |literals| == 1 then [] else COMMA + Join(all[1..], COMMA);
      assert all[0] + tail == Join(all, COMMA);
    } else {
      tail := ArgumentsAround(literals[1..], k - 1);
      var rest := Earlier(literals[1..], k - 1);
      ConcatAssoc(COMMA, rest, Render(literals[k]) + tail);
      ConcatAssoc(all[0], COMMA + rest, Render(literals[k]) + tail);
    }
  }
}
