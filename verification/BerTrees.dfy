/** Element trees, every way of encoding them, and what a walk must report for each. */
module BerTrees {
  import opened Bytes
  import opened Ber
  import opened DerText

  /** How a length is written: one octet, a count and that many octets, or end-of-contents octets. */
  datatype Form = Short | Long(octets: nat) | Open

  datatype Node =
    | Leaf(tag: Octets, value: Octets, form: Form)
    | Identifier(arcs: Oid, form: Form)
    | Branch(tag: Octets, children: seq<Node>, form: Form)

  // ----- Encoding -----

  function HighArc(n: nat): Octets {
    if n < 128 then [128 + n] else HighArc(n / 128) + [128 + n % 128]
  }

  function EncodeArc(n: nat): Octets {
    if n < 128 then [n] else HighArc(n / 128) + [n % 128]
  }

  function EncodeArcs(arcs: seq<nat>): Octets {
    if arcs == [] then [] else EncodeArc(arcs[0]) + EncodeArcs(arcs[1..])
  }

  function EncodeOid(arcs: Oid): Octets
    requires |arcs| >= 2
  {
    EncodeArcs([40 * arcs[0] + arcs[1]] + arcs[2..])
  }

  function Power(k: nat): nat {
    if k == 0 then 1 else 256 * Power(k - 1)
  }

  function Octets256(n: nat, k: nat): (s: Octets)
    ensures |s| == k
  {
    if k == 0 then [] else Octets256(n / 256, k - 1) + [n % 256]
  }

  predicate FormFits(form: Form, n: nat) {
    match form
    case Short => n < 128
    case Long(k) => 1 <= k <= 4 && n < Power(k)
    case Open => false
  }

  function EncodeLength(form: Form, n: nat): (s: Octets)
    requires FormFits(form, n)
    ensures |s| >= 1
  {
    if form.Short? then [n] else [128 + form.octets] + Octets256(n, form.octets)
  }

  predicate GoodTag(tag: Octets) {
    && tag != []
    && (if tag[0] % 32 == 31
        then 2 <= |tag| <= 9 && tag[|tag| - 1] < 128 && forall i | 1 <= i < |tag| - 1 :: tag[i] >= 128
        else |tag| == 1)
  }

  predicate GoodArcs(arcs: Oid) {
    && |arcs| >= 2 && arcs[0] <= 2 && (arcs[0] < 2 ==> arcs[1] < 40)
    && 40 * arcs[0] + arcs[1] <= U64_MAX
    && forall i | 2 <= i < |arcs| :: arcs[i] <= U64_MAX
  }

  /** The one element that looks like end-of-contents octets. */
  predicate LooksLikeEnd(node: Node) {
    node == Leaf([0], [], Short)
  }

  predicate Good(node: Node)
    decreases node, 0
  {
    match node
    case Leaf(tag, value, form) =>
      GoodTag(tag) && tag[0] != 0x06 && !Constructed(tag[0]) && FormFits(form, |value|)
    case Identifier(arcs, form) => GoodArcs(arcs) && FormFits(form, |EncodeOid(arcs)|)
    case Branch(tag, children, form) =>
      && GoodTag(tag) && Constructed(tag[0])
      && AllGood(children)
      && (if form.Open? then forall i | 0 <= i < |children| :: !LooksLikeEnd(children[i])
          else FormFits(form, |EncodeAll(children)|))
  }

  predicate AllGood(nodes: seq<Node>)
    decreases nodes, 0
  {
    nodes == [] || (Good(nodes[0]) && AllGood(nodes[1..]))
  }

  function Encode(node: Node): Octets
    requires Good(node)
    decreases node, 1
  {
    match node
    case Leaf(tag, value, form) => tag + EncodeLength(form, |value|) + value
    case Identifier(arcs, form) => [0x06] + EncodeLength(form, |EncodeOid(arcs)|) + EncodeOid(arcs)
    case Branch(tag, children, form) =>
      var body := EncodeAll(children);
      if form.Open? then tag + [128] + (body + [0, 0]) else tag + EncodeLength(form, |body|) + body
  }

  function EncodeAll(nodes: seq<Node>): Octets
    requires AllGood(nodes)
    decreases nodes, 1
  {
    if nodes == [] then [] else Encode(nodes[0]) + EncodeAll(nodes[1..])
  }

  // ----- Object identifiers come back arc for arc -----

  lemma HighStep(s: Octets, i: nat, value: nat, continued: bool, low: nat)
    requires i < |s| && low < 128 && s[i] == 128 + low && value * 128 + low <= U64_MAX
    ensures Arcs(s, i, value, continued) == Arcs(s, i + 1, value * 128 + low, true)
  {
  }

  lemma LowStep(s: Octets, i: nat, value: nat, continued: bool, low: nat)
    requires i < |s| && low < 128 && s[i] == low && value * 128 + low <= U64_MAX
    ensures Arcs(s, i, value, continued) ==
            match Arcs(s, i + 1, 0, false)
            case Ok(rest) => Ok([value * 128 + low] + rest)
            case Err(error) => Err(error)
  {
  }

  lemma {:induction false} HighArcReads(s: Octets, i: nat, n: nat, continued: bool)
    requires At(s, i, HighArc(n)) && n <= U64_MAX
    ensures i + |HighArc(n)| <= |s|
    ensures Arcs(s, i, 0, continued) == Arcs(s, i + |HighArc(n)|, n, true)
  {
    hide Arcs;
    if n < 128 {
      AtByte(s, i, HighArc(n), 0);
      HighStep(s, i, 0, continued, n);
    } else {
      var high, low := n / 128, n % 128;
      AtSplit(s, i, HighArc(high), [128 + low]);
      HighArcReads(s, i, high, continued);
      AtByte(s, i + |HighArc(high)|, [128 + low], 0);
      HighStep(s, i + |HighArc(high)|, high, true, low);
    }
  }

  lemma ArcReads(s: Octets, i: nat, n: nat, continued: bool)
    requires At(s, i, EncodeArc(n)) && n <= U64_MAX
    ensures i + |EncodeArc(n)| <= |s|
    ensures Arcs(s, i, 0, continued) ==
            match Arcs(s, i + |EncodeArc(n)|, 0, false)
            case Ok(rest) => Ok([n] + rest)
            case Err(error) => Err(error)
  {
    hide Arcs, HighArc;
    if n < 128 {
      AtByte(s, i, EncodeArc(n), 0);
      LowStep(s, i, 0, continued, n);
    } else {
      var high, low := n / 128, n % 128;
      AtSplit(s, i, HighArc(high), [low]);
      HighArcReads(s, i, high, continued);
      AtByte(s, i + |HighArc(high)|, [low], 0);
      LowStep(s, i + |HighArc(high)|, high, true, low);
    }
  }

  lemma {:induction false} ArcsRead(s: Octets, i: nat, arcs: seq<nat>)
    requires At(s, i, EncodeArcs(arcs)) && i + |EncodeArcs(arcs)| == |s|
    requires forall k | 0 <= k < |arcs| :: arcs[k] <= U64_MAX
    ensures Arcs(s, i, 0, false) == Ok(arcs)
    decreases |arcs|
  {
    hide EncodeArc, At;
    if arcs == [] {
      assert Arcs(s, |s|, 0, false) == Ok([]);
    } else {
      hide Arcs;
      assert EncodeArcs(arcs) == EncodeArc(arcs[0]) + EncodeArcs(arcs[1..]);
      AtSplit(s, i, EncodeArc(arcs[0]), EncodeArcs(arcs[1..]));
      ArcReads(s, i, arcs[0], false);
      ArcsRead(s, i + |EncodeArc(arcs[0])|, arcs[1..]);
      assert [arcs[0]] + arcs[1..] == arcs;
    }
  }

  lemma OidRoundTrip(arcs: Oid)
    requires GoodArcs(arcs)
    ensures DecodeOid(EncodeOid(arcs)) == Ok(arcs)
  {
    var numbers := [40 * arcs[0] + arcs[1]] + arcs[2..];
    var s := EncodeOid(arcs);
    assert s == EncodeArc(numbers[0]) + EncodeArcs(numbers[1..]);
    assert s[0..|s|] == s;
    ArcsRead(s, 0, numbers);
    assert Min(numbers[0], 80) / 40 == arcs[0];
    assert [arcs[0], arcs[1]] + arcs[2..] == arcs;
  }

  // ----- Tags and lengths -----

  lemma {:induction false} HighTagReads(s: Octets, p: nat, hi: nat, tag: Octets, k: nat)
    requires GoodTag(tag) && tag[0] % 32 == 31 && 1 <= k < |tag|
    requires At(s, p, tag) && p + |tag| <= hi <= |s|
    ensures HighTag(s, p, p + k, hi) == Ok(p + |tag|)
    decreases |tag| - k
  {
    AtByte(s, p, tag, k);
    if k < |tag| - 1 {
      HighTagReads(s, p, hi, tag, k + 1);
    }
  }

  lemma TagReads(s: Octets, p: nat, hi: nat, tag: Octets)
    requires GoodTag(tag) && At(s, p, tag) && p + |tag| <= hi <= |s|
    ensures s[p] == tag[0] && TagEnd(s, p, hi) == Ok(p + |tag|)
  {
    AtByte(s, p, tag, 0);
    if tag[0] % 32 == 31 {
      HighTagReads(s, p, hi, tag, 1);
    }
  }

  lemma {:induction false} BigEndianReads(n: nat, k: nat)
    requires n < Power(k)
    ensures BigEndian(Octets256(n, k)) == n
  {
    if k > 0 {
      BigEndianReads(n / 256, k - 1);
      var s := Octets256(n, k);
      assert s[..|s| - 1] == Octets256(n / 256, k - 1);
    }
  }

  lemma LengthReads(s: Octets, p: nat, hi: nat, form: Form, n: nat)
    requires FormFits(form, n)
    requires At(s, p, EncodeLength(form, n)) && p + |EncodeLength(form, n)| <= hi <= |s|
    ensures ReadLength(s, p, hi) == Ok((Definite(n), p + |EncodeLength(form, n)|))
  {
    AtByte(s, p, EncodeLength(form, n), 0);
    if form.Long? {
      AtSplit(s, p, [128 + form.octets], Octets256(n, form.octets));
      BigEndianReads(n, form.octets);
    }
  }

  // ----- What a walk must report -----

  function Nodes(node: Node): nat
    decreases node, 0
  {
    1 + if node.Branch? then NodesOf(node.children) else 0
  }

  function NodesOf(nodes: seq<Node>): nat
    decreases nodes, 0
  {
    if nodes == [] then 0 else Nodes(nodes[0]) + NodesOf(nodes[1..])
  }

  /** Nested no deeper than the limit when its root is at `depth`. */
  predicate Shallow(node: Node, depth: nat)
    decreases node, 0
  {
    depth <= MAX_DEPTH && (node.Branch? ==> AllShallow(node.children, depth + 1))
  }

  predicate AllShallow(nodes: seq<Node>, depth: nat)
    decreases nodes, 0
  {
    nodes == [] || (Shallow(nodes[0], depth) && AllShallow(nodes[1..], depth))
  }

  function OpenNodes(node: Node): nat
    decreases node, 0
  {
    if node.Branch? then (if node.form.Open? then 1 else 0) + OpenNodesOf(node.children) else 0
  }

  function OpenNodesOf(nodes: seq<Node>): nat
    decreases nodes, 0
  {
    if nodes == [] then 0 else OpenNodes(nodes[0]) + OpenNodesOf(nodes[1..])
  }

  /** Object identifiers in preorder, repetitions included. */
  function Oids(node: Node): seq<Oid>
    decreases node, 0
  {
    match node
    case Leaf(_, _, _) => []
    case Identifier(arcs, _) => [arcs]
    case Branch(_, children, _) => OidsOf(children)
  }

  function OidsOf(nodes: seq<Node>): seq<Oid>
    decreases nodes, 0
  {
    if nodes == [] then [] else Oids(nodes[0]) + OidsOf(nodes[1..])
  }

  /** Texts worth keeping in preorder, repetitions included. */
  function Texts(node: Node): seq<Text>
    decreases node, 0
  {
    match node
    case Leaf(tag, value, _) =>
      if tag == [] then [] else
      var text := TextOf(tag[0], value);
      if text.Some? then [text.value] else []
    case Identifier(_, _) => []
    case Branch(_, children, _) => TextsOf(children)
  }

  function TextsOf(nodes: seq<Node>): seq<Text>
    decreases nodes, 0
  {
    if nodes == [] then [] else Texts(nodes[0]) + TextsOf(nodes[1..])
  }

  /** `known` followed by the members of `more` not met before, in order of first appearance. */
  function Distinct<T(==)>(known: seq<T>, more: seq<T>): seq<T>
    decreases |more|
  {
    if more == [] then known
    else Distinct(if more[0] in known then known else known + [more[0]], more[1..])
  }

  lemma {:induction false} DistinctConcat<T>(known: seq<T>, a: seq<T>, b: seq<T>)
    ensures Distinct(known, a + b) == Distinct(Distinct(known, a), b)
    decreases |a|
  {
    if a == [] {
      assert a + b == b;
    } else {
      DistinctConcat(if a[0] in known then known else known + [a[0]], a[1..], b);
      assert (a + b)[1..] == a[1..] + b;
    }
  }

  function Report(before: Inventory, oids: seq<Oid>, texts: seq<Text>, nodes: nat, open: nat): Inventory {
    Inventory(Distinct(before.oids, oids), Distinct(before.texts, texts), before.nodes + nodes, before.indefinite + open)
  }

  function Expected(before: Inventory, node: Node): Inventory {
    Report(before, Oids(node), Texts(node), Nodes(node), OpenNodes(node))
  }

  function ExpectedOf(before: Inventory, nodes: seq<Node>): Inventory {
    Report(before, OidsOf(nodes), TextsOf(nodes), NodesOf(nodes), OpenNodesOf(nodes))
  }

  lemma ExpectedStep(before: Inventory, nodes: seq<Node>)
    requires nodes != []
    ensures ExpectedOf(before, nodes) == ExpectedOf(Expected(before, nodes[0]), nodes[1..])
  {
    DistinctConcat(before.oids, Oids(nodes[0]), OidsOf(nodes[1..]));
    DistinctConcat(before.texts, Texts(nodes[0]), TextsOf(nodes[1..]));
  }

  // ----- The walk meets it -----

  /** The walk of a region succeeds exactly within the limits, and then reports what the region holds. */
  predicate Meets(w: Walked, within: bool, inventory: Inventory, end: nat) {
    if within then w == Walked(inventory, Ok(end)) else w.end.Err?
  }

  predicate Room(before: Inventory, nodes: nat) {
    nodes == 0 || before.nodes + nodes <= MAX_NODES
  }

  lemma EncodedStart(node: Node)
    requires Good(node)
    ensures |Encode(node)| >= 2
    ensures !LooksLikeEnd(node) ==> Encode(node)[0] != 0 || Encode(node)[1] != 0
  {
  }

  function Counted(before: Inventory): Inventory {
    before.(nodes := before.nodes + 1)
  }

  lemma WalkDefinite(s: Octets, p: nat, hi: nat, depth: nat, before: Inventory, tag: Octets, form: Form, value: Octets)
    requires GoodTag(tag) && FormFits(form, |value|) && depth <= MAX_DEPTH && Room(before, 1)
    requires At(s, p, tag + EncodeLength(form, |value|) + value)
    requires p + |tag + EncodeLength(form, |value|) + value| <= hi <= |s|
    ensures
      var body := p + |tag| + |EncodeLength(form, |value|)|;
      && s[p] == tag[0] && At(s, body, value)
      && Walk(s, p, hi, depth, before) == Contents(s, p, body, body + |value|, depth, Counted(before))
  {
    hide Contents, UntilMarker, TagEnd, ReadLength, EncodeLength, GoodTag, FormFits;
    AtSplit(s, p, tag + EncodeLength(form, |value|), value);
    AtSplit(s, p, tag, EncodeLength(form, |value|));
    TagReads(s, p, hi, tag);
    LengthReads(s, p + |tag|, hi, form, |value|);
  }

  lemma WalkIndefinite(s: Octets, p: nat, hi: nat, depth: nat, before: Inventory, tag: Octets, value: Octets)
    requires GoodTag(tag) && Constructed(tag[0]) && depth <= MAX_DEPTH && Room(before, 1)
    requires At(s, p, tag + [128] + value) && p + |tag + [128] + value| <= hi <= |s|
    ensures
      var body, counted := p + |tag| + 1, Counted(before);
      && At(s, body, value)
      && Walk(s, p, hi, depth, before) ==
         UntilMarker(s, body, hi, depth, counted.(indefinite := counted.indefinite + 1))
  {
    hide Contents, UntilMarker, TagEnd, GoodTag, Constructed;
    AtSplit(s, p, tag + [128], value);
    AtSplit(s, p, tag, [128]);
    TagReads(s, p, hi, tag);
    AtByte(s, p + |tag|, [128], 0);
  }

  lemma WalkTooMuch(s: Octets, p: nat, hi: nat, depth: nat, before: Inventory)
    requires p <= hi <= |s|
    ensures depth > MAX_DEPTH || !Room(before, 1) ==> Walk(s, p, hi, depth, before).end.Err?
  {
  }

  lemma RememberOne(before: Inventory, arcs: Oid)
    ensures Distinct(before.oids, [arcs]) == Remember(Counted(before), arcs).oids
    ensures Distinct(before.texts, []) == before.texts && !Constructed(0x06)
  {
    assert [arcs][1..] == [];
  }

  lemma NoTextInBranch(tag: byte)
    ensures Constructed(tag) ==> forall value :: TextOf(tag, value).None?
  {
    hide DecodeUtf8, DecodeUtf16;
  }

  lemma RememberOneText(before: Inventory, tag: byte, value: Octets)
    ensures
      var text := TextOf(tag, value);
      Distinct(before.texts, if text.Some? then [text.value] else []) ==
      RememberText(Counted(before), text).texts
    ensures Distinct(before.oids, []) == before.oids
  {
    var text := TextOf(tag, value);
    if text.Some? {
      assert [text.value][1..] == [];
    }
  }

  /**
   Walking the encoding of any tree: within the depth and node limits it consumes
   exactly that encoding and reports the tree's distinct identifiers in preorder
   and its node counts; beyond them it fails.
   */
  lemma {:induction false} WalkTree(s: Octets, p: nat, hi: nat, depth: nat, before: Inventory, node: Node)
    requires Good(node) && At(s, p, Encode(node)) && p + |Encode(node)| <= hi <= |s|
    ensures Meets(Walk(s, p, hi, depth, before), Shallow(node, depth) && Room(before, Nodes(node)),
                  Expected(before, node), p + |Encode(node)|)
    decreases node, 2
  {
    hide Walk, Children, UntilMarker, DecodeOid, GoodTag, GoodArcs, FormFits, EncodeLength, EncodeOid, At;
    if depth > MAX_DEPTH || !Room(before, 1) {
      WalkTooMuch(s, p, hi, depth, before);
      return;
    }
    match node
    case Leaf(tag, value, form) =>
      WalkLeaf(s, p, hi, depth, before, node);
    case Identifier(arcs, form) =>
      WalkIdentifier(s, p, hi, depth, before, node);
    case Branch(tag, children, form) =>
      WalkBranch(s, p, hi, depth, before, node);
  }

  lemma WalkLeaf(s: Octets, p: nat, hi: nat, depth: nat, before: Inventory, node: Node)
    requires Good(node) && node.Leaf? && At(s, p, Encode(node)) && p + |Encode(node)| <= hi <= |s|
    requires depth <= MAX_DEPTH && Room(before, 1)
    ensures Walk(s, p, hi, depth, before) == Walked(Expected(before, node), Ok(p + |Encode(node)|))
  {
    hide At, Walk, Contents, TextOf, GoodTag, Constructed, FormFits, EncodeLength, Distinct, RememberText;
    var Leaf(tag, value, form) := node;
    WalkDefinite(s, p, hi, depth, before, tag, form, value);
    var body := p + |tag| + |EncodeLength(form, |value|)|;
    AtSlice(s, body, value);
    TagNotEmpty(tag);
    LeafNoted(s, p, body, value, depth, Counted(before));
    RememberOneText(before, tag[0], value);
    TextOnly(Counted(before), TextOf(tag[0], value));
  }

  lemma TagNotEmpty(tag: Octets)
    requires GoodTag(tag)
    ensures tag != []
  {
  }

  lemma LeafNoted(s: Octets, p: nat, body: nat, value: Octets, depth: nat, before: Inventory)
    requires p < body && body + |value| <= |s| && s[body..body + |value|] == value
    requires s[p] != 0x06 && !Constructed(s[p])
    ensures Contents(s, p, body, body + |value|, depth, before) ==
            Walked(RememberText(before, TextOf(s[p], value)), Ok(body + |value|))
  {
    hide Children, TextOf, Constructed, RememberText;
  }

  lemma TextOnly(before: Inventory, text: Option<Text>)
    ensures
      var after := RememberText(before, text);
      after.oids == before.oids && after.nodes == before.nodes && after.indefinite == before.indefinite
  {
  }

  lemma WalkIdentifier(s: Octets, p: nat, hi: nat, depth: nat, before: Inventory, node: Node)
    requires Good(node) && node.Identifier? && At(s, p, Encode(node)) && p + |Encode(node)| <= hi <= |s|
    requires depth <= MAX_DEPTH && Room(before, 1)
    ensures Walk(s, p, hi, depth, before) == Walked(Expected(before, node), Ok(p + |Encode(node)|))
  {
    hide Walk, Children, DecodeOid, FormFits, EncodeLength, EncodeOid;
    var value := EncodeOid(node.arcs);
    WalkDefinite(s, p, hi, depth, before, [0x06], node.form, value);
    OidRoundTrip(node.arcs);
    RememberOne(before, node.arcs);
  }

  lemma {:induction false} WalkBranch(s: Octets, p: nat, hi: nat, depth: nat, before: Inventory, node: Node)
    requires Good(node) && node.Branch? && At(s, p, Encode(node)) && p + |Encode(node)| <= hi <= |s|
    requires depth <= MAX_DEPTH && Room(before, 1)
    ensures Meets(Walk(s, p, hi, depth, before), Shallow(node, depth) && Room(before, Nodes(node)),
                  Expected(before, node), p + |Encode(node)|)
    decreases node, 1
  {
    hide Walk, Children, UntilMarker, DecodeOid, GoodTag, FormFits, EncodeLength, EncodeAll, At, LooksLikeEnd;
    hide NodesOf, OidsOf, TextsOf, OpenNodesOf, AllShallow, AllGood, Distinct, TextOf;
    var Branch(tag, children, form) := node;
    var body := EncodeAll(children);
    if form.Open? {
      WalkIndefinite(s, p, hi, depth, before, tag, body + [0, 0]);
      var counted := Counted(before);
      WalkOpen(s, p + |tag| + 1, hi, depth, counted.(indefinite := counted.indefinite + 1), children);
    } else {
      WalkDefinite(s, p, hi, depth, before, tag, form, body);
      NoTextInBranch(s[p]);
      WalkClosed(s, p + |tag| + |EncodeLength(form, |body|)|, depth, Counted(before), children);
    }
  }

  lemma {:induction false} WalkClosed(s: Octets, p: nat, depth: nat, before: Inventory, nodes: seq<Node>)
    requires AllGood(nodes) && At(s, p, EncodeAll(nodes))
    ensures Meets(Children(s, p, p + |EncodeAll(nodes)|, depth, before),
                  AllShallow(nodes, depth + 1) && Room(before, NodesOf(nodes)),
                  ExpectedOf(before, nodes), p + |EncodeAll(nodes)|)
    decreases nodes, 3
  {
    hide Walk, Encode, Good, Shallow, Nodes, Oids, Texts, OpenNodes, Distinct;
    if nodes == [] {
      KnownOnly(before.oids);
      KnownOnly(before.texts);
    } else {
      hide At;
      AtSplit(s, p, Encode(nodes[0]), EncodeAll(nodes[1..]));
      EncodedStart(nodes[0]);
      WalkTree(s, p, p + |EncodeAll(nodes)|, depth + 1, before, nodes[0]);
      WalkClosed(s, p + |Encode(nodes[0])|, depth, Expected(before, nodes[0]), nodes[1..]);
      ExpectedStep(before, nodes);
    }
  }

  lemma KnownOnly<T>(known: seq<T>)
    ensures Distinct(known, []) == known
  {
  }

  lemma {:induction false} WalkOpen(s: Octets, p: nat, hi: nat, depth: nat, before: Inventory, nodes: seq<Node>)
    requires AllGood(nodes) && At(s, p, EncodeAll(nodes) + [0, 0]) && p + |EncodeAll(nodes)| + 2 <= hi <= |s|
    requires forall i | 0 <= i < |nodes| :: !LooksLikeEnd(nodes[i])
    ensures Meets(UntilMarker(s, p, hi, depth, before),
                  AllShallow(nodes, depth + 1) && Room(before, NodesOf(nodes)),
                  ExpectedOf(before, nodes), p + |EncodeAll(nodes)| + 2)
    decreases nodes, 3
  {
    hide Walk, Encode, Good, Shallow, Nodes, Oids, Texts, OpenNodes, LooksLikeEnd, Distinct, At, UntilMarker;
    if nodes == [] {
      assert EncodeAll(nodes) + [0, 0] == [0, 0];
      AtByte(s, p, [0, 0], 0);
      AtByte(s, p, [0, 0], 1);
      MarkerStep(s, p, hi, depth, before);
      KnownOnly(before.oids);
      KnownOnly(before.texts);
    } else {
      OpenStarts(s, p, nodes);
      hide EncodeAll, ExpectedOf;
      MarkerStep(s, p, hi, depth, before);
      WalkTree(s, p, hi, depth + 1, before, nodes[0]);
      WalkOpen(s, p + |Encode(nodes[0])|, hi, depth, Expected(before, nodes[0]), nodes[1..]);
      ExpectedStep(before, nodes);
    }
  }

  /** The first of some elements before end-of-contents octets does not look like them. */
  lemma OpenStarts(s: Octets, p: nat, nodes: seq<Node>)
    requires nodes != [] && AllGood(nodes) && !LooksLikeEnd(nodes[0])
    requires At(s, p, EncodeAll(nodes) + [0, 0])
    ensures
      var first, rest := Encode(nodes[0]), EncodeAll(nodes[1..]);
      && |EncodeAll(nodes)| == |first| + |rest|
      && At(s, p, first) && At(s, p + |first|, rest + [0, 0])
      && p + 2 <= |s| && !(s[p] == 0 && s[p + 1] == 0)
  {
    hide Encode, Good, LooksLikeEnd, At;
    var first, rest := Encode(nodes[0]), EncodeAll(nodes[1..]);
    ConcatAssoc(first, rest, [0, 0]);
    AtSplit(s, p, first, rest + [0, 0]);
    EncodedStart(nodes[0]);
    AtIn(s, p, first);
    AtByte(s, p, first, 0);
    AtByte(s, p, first, 1);
  }

  lemma MarkerStep(s: Octets, p: nat, hi: nat, depth: nat, before: Inventory)
    requires p + 2 <= hi <= |s|
    ensures
      var child := Walk(s, p, hi, depth + 1, before);
      UntilMarker(s, p, hi, depth, before) ==
      if s[p] == 0 && s[p + 1] == 0 then Walked(before, Ok(p + 2))
      else if child.end.Err? then child
      else UntilMarker(s, child.end.value, hi, depth, child.inventory)
  {
    hide Walk;
  }

  /** A token that is the encoding of one tree. */
  lemma TokenRoundTrip(node: Node)
    requires Good(node)
    ensures Meets(Walk(Encode(node), 0, |Encode(node)|, 0, EMPTY), Shallow(node, 0) && Nodes(node) <= MAX_NODES,
                  Inventory(Distinct([], Oids(node)), Distinct([], Texts(node)), Nodes(node), OpenNodes(node)), |Encode(node)|)
  {
    hide Walk, Encode, Good, Shallow, Nodes, Oids, Texts, OpenNodes, Distinct;
    assert Encode(node)[0..|Encode(node)|] == Encode(node);
    WalkTree(Encode(node), 0, |Encode(node)|, 0, EMPTY, node);
  }

  predicate NoRepeats<T(==)>(items: seq<T>) {
    forall i, j | 0 <= i < j < |items| :: items[i] != items[j]
  }

  lemma {:induction false} DistinctMembers<T>(known: seq<T>, more: seq<T>)
    requires NoRepeats(known)
    ensures NoRepeats(Distinct(known, more)) && known <= Distinct(known, more)
    ensures forall item :: item in Distinct(known, more) <==> item in known || item in more
    decreases |more|
  {
    if more != [] {
      DistinctMembers(if more[0] in known then known else known + [more[0]], more[1..]);
      assert more == [more[0]] + more[1..];
    }
  }

  /** What any walk, successful or not, does to an inventory. */
  predicate Grows(before: Inventory, w: Walked) {
    var after, limit := w.inventory, if before.nodes > MAX_NODES then before.nodes else MAX_NODES;
    && before.oids <= after.oids && before.texts <= after.texts
    && (NoRepeats(before.oids) ==> NoRepeats(after.oids))
    && (NoRepeats(before.texts) ==> NoRepeats(after.texts))
    && before.nodes <= after.nodes <= limit + 1
    && (w.end.Ok? ==> after.nodes <= limit)
    && before.indefinite <= after.indefinite
  }

  /** Noting a value grows the inventory by at most one member of one kind. */
  lemma NoteGrows(first: byte, value: Octets, before: Inventory)
    ensures
      var noted := Note(first, value, before);
      noted.Ok? ==>
        && noted.value.nodes == before.nodes && noted.value.indefinite == before.indefinite
        && before.oids <= noted.value.oids && before.texts <= noted.value.texts
        && (NoRepeats(before.oids) ==> NoRepeats(noted.value.oids))
        && (NoRepeats(before.texts) ==> NoRepeats(noted.value.texts))
  {
    hide DecodeOid, TextOf;
  }

  lemma {:induction false} ContentsGrow(s: Octets, p: nat, body: nat, end: nat, depth: nat, before: Inventory)
    requires p < body <= end <= |s| && before.nodes <= MAX_NODES
    ensures Grows(before, Contents(s, p, body, end, depth, before))
    decreases end - p, 0
  {
    hide Children, Note, NoRepeats;
    NoteGrows(s[p], s[body..end], before);
    var noted := Note(s[p], s[body..end], before);
    if noted.Ok? {
      ClosedGrows(s, body, end, depth, noted.value);
    }
  }

  lemma {:induction false} WalkGrows(s: Octets, p: nat, hi: nat, depth: nat, before: Inventory)
    requires p <= hi <= |s|
    ensures Grows(before, Walk(s, p, hi, depth, before))
    decreases hi - p, 1
  {
    hide Contents, UntilMarker, TagEnd, ReadLength, NoRepeats;
    if depth > MAX_DEPTH || before.nodes + 1 > MAX_NODES || p == hi || TagEnd(s, p, hi).Err? {
      return;
    }
    var q, counted := TagEnd(s, p, hi).value, Counted(before);
    match ReadLength(s, q, hi)
    case Err(_) =>
    case Ok((Indefinite, body)) =>
      OpenGrows(s, body, hi, depth, counted.(indefinite := counted.indefinite + 1));
    case Ok((Definite(n), body)) =>
      if body + n <= hi {
        ContentsGrow(s, p, body, body + n, depth, counted);
      }
  }

  lemma {:induction false} ClosedGrows(s: Octets, p: nat, hi: nat, depth: nat, before: Inventory)
    requires p <= hi <= |s|
    ensures Grows(before, Children(s, p, hi, depth, before))
    decreases hi - p, 2
  {
    hide Walk, NoRepeats;
    if p < hi {
      WalkGrows(s, p, hi, depth + 1, before);
      var child := Walk(s, p, hi, depth + 1, before);
      if child.end.Ok? {
        ClosedGrows(s, child.end.value, hi, depth, child.inventory);
      }
    }
  }

  lemma {:induction false} OpenGrows(s: Octets, p: nat, hi: nat, depth: nat, before: Inventory)
    requires p <= hi <= |s|
    ensures Grows(before, UntilMarker(s, p, hi, depth, before))
    decreases hi - p, 2
  {
    hide Walk, NoRepeats;
    if p + 2 <= hi && !(s[p] == 0 && s[p + 1] == 0) {
      WalkGrows(s, p, hi, depth + 1, before);
      var child := Walk(s, p, hi, depth + 1, before);
      if child.end.Ok? {
        OpenGrows(s, child.end.value, hi, depth, child.inventory);
      }
    }
  }
}
