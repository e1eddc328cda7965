/**
 * The OTB tree format of src/fileloader.cpp as values: the byte layouts the parser accepts, the tree encoder, the
 * naive unescaper, and the run of the parser as a function.
 */
module OtbFormat {
  import opened Bytes
  import opened Options

  const ESCAPE: Byte := 0xFD
  const START: Byte := 0xFE
  const END: Byte := 0xFF
  const IDENTIFIER_SIZE: nat := 4
  const MINIMAL_SIZE: nat := 7  // identifier, START, type byte, END

  /** OTB::Node; the properties are the bytes begin .. end of the file. */
  datatype Node = Node(tag: Byte, begin: nat, end: nat, children: seq<Node>)

  /** A node still open on the parse stack; end is set once a first child has started. */
  datatype Frame = Frame(tag: Byte, begin: nat, end: Option<nat>, children: seq<Node>)

  datatype ParseResult = InvalidOTBFormat | Parsed(root: Node)

  /** The property range of a node ends where its first child starts. */
  function Marked(f: Frame, at: nat): Frame {
    if f.end.None? then f.(end := Some(at)) else f
  }

  function Closed(f: Frame, at: nat): Node {
    Node(f.tag, f.begin, Marked(f, at).end.value, f.children)
  }

  /** Popping the closed node hands it to its parent; without a parent it is the root. */
  function Pop(stack: seq<Frame>, at: nat): (seq<Frame>, Option<Node>)
    requires stack != []
  {
    var node := Closed(stack[|stack| - 1], at);
    if |stack| == 1 then ([], Some(node)) else
      var parent := stack[|stack| - 2];
      (stack[..|stack| - 2] + [parent.(children := parent.children + [node])], None)
  }

  function Mark(stack: seq<Frame>, at: nat): seq<Frame>
    requires stack != []
  {
    stack[..|stack| - 1] + [Marked(stack[|stack| - 1], at)]
  }

  /** The loop of Loader::parseTree from position it on, with the open nodes and the root once it is closed. */
  function Run(s: seq<Byte>, it: nat, stack: seq<Frame>, root: Option<Node>): ParseResult
    requires it <= |s| && (stack == [] ==> root.Some?)
    decreases |s| - it
  {
    if it == |s| then
      if stack == [] then Parsed(root.value) else InvalidOTBFormat
    else if s[it] == START then
      if stack == [] || it + 1 == |s| then InvalidOTBFormat
      else Run(s, it + 2, Mark(stack, it) + [Frame(s[it + 1], it + 2, None, [])], root)
    else if s[it] == END then
      if stack == [] then InvalidOTBFormat
      else
        var (below, closed) := Pop(stack, it);
        Run(s, it + 1, below, if closed.Some? then closed else root)
    else if s[it] == ESCAPE then
      if it + 1 == |s| then InvalidOTBFormat else Run(s, it + 2, stack, root)
    else
      Run(s, it + 1, stack, root)
  }

  /** Opening a file and parsing its tree. */
  function Load(file: seq<Byte>, accepted: seq<Byte>): ParseResult
    requires |accepted| == IDENTIFIER_SIZE
  {
    if |file| <= MINIMAL_SIZE then InvalidOTBFormat
    else if file[..IDENTIFIER_SIZE] != accepted && file[..IDENTIFIER_SIZE] != [0, 0, 0, 0] then InvalidOTBFormat
    else if file[4] != START then InvalidOTBFormat
    else Run(file, 6, [Frame(file[5], 6, None, [])], None)
  }

  // ---------------------------------------------------------------- accepted layouts

  /** No node marker stands bare, and no escape lacks its byte. */
  predicate Flat(s: seq<Byte>) {
    s == [] ||
    (if s[0] == ESCAPE then |s| >= 2 && Flat(s[2..]) else s[0] != START && s[0] != END && Flat(s[1..]))
  }

  /** The text of a node: type byte, property bytes, and child nodes each followed by a gap the loader ignores. */
  datatype Layout = Layout(tag: Byte, props: seq<Byte>, kids: seq<Kid>)
  datatype Kid = Kid(node: Layout, gap: seq<Byte>)

  ghost predicate WellFormed(l: Layout) {
    Flat(l.props) && KidsWellFormed(l.kids)
  }

  ghost predicate KidsWellFormed(kids: seq<Kid>) {
    kids == [] || (WellFormed(kids[0].node) && Flat(kids[0].gap) && KidsWellFormed(kids[1..]))
  }

  ghost function Text(l: Layout): seq<Byte> {
    [START, l.tag] + (l.props + (KidsText(l.kids) + [END]))
  }

  ghost function KidsText(kids: seq<Kid>): seq<Byte> {
    if kids == [] then [] else Text(kids[0].node) + (kids[0].gap + KidsText(kids[1..]))
  }

  /** The node the loader must report for a layout that starts at byte at. */
  ghost function ShapeOf(l: Layout, at: nat): Node {
    var end := at + 2 + |l.props|;
    Node(l.tag, at + 2, end, KidShapes(l.kids, end))
  }

  ghost function KidShapes(kids: seq<Kid>, at: nat): seq<Node> {
    if kids == [] then [] else
      [ShapeOf(kids[0].node, at)] + KidShapes(kids[1..], at + |Text(kids[0].node)| + |kids[0].gap|)
  }

  // ---------------------------------------------------------------- every layout is accepted

  ghost predicate At(s: seq<Byte>, at: nat, t: seq<Byte>) {
    at + |t| <= |s| && s[at..at + |t|] == t
  }

  lemma AtParts(s: seq<Byte>, at: nat, t: seq<Byte>, u: seq<Byte>)
    ensures At(s, at, t + u) <==> At(s, at, t) && At(s, at + |t|, u)
  {
    if at + |t| + |u| <= |s| {
      var w := s[at..at + |t + u|];
      assert w[..|t|] == s[at..at + |t|] && w[|t|..] == s[at + |t|..at + |t| + |u|];
      assert w == w[..|t|] + w[|t|..];
      assert (t + u)[..|t|] == t && (t + u)[|t|..] == u;
    }
  }

  lemma AtSlice(s: seq<Byte>, at: nat, t: seq<Byte>)
    ensures At(s, at, t) <==> at + |t| <= |s| && s[at..at + |t|] == t
  {
  }

  lemma AtByte(s: seq<Byte>, at: nat, b: Byte)
    ensures At(s, at, [b]) <==> at < |s| && s[at] == b
  {
  }

  lemma AtTwo(s: seq<Byte>, at: nat, a: Byte, b: Byte)
    ensures At(s, at, [a, b]) <==> at + 1 < |s| && s[at] == a && s[at + 1] == b
  {
    if at + 1 < |s| {
      assert s[at..at + 2] == [s[at], s[at + 1]];
    }
  }

  /** Flat bytes change nothing, on whatever stack. */
  lemma {:induction false} RunFlat(s: seq<Byte>, at: nat, f: seq<Byte>, stack: seq<Frame>, root: Option<Node>)
    requires At(s, at, f) && Flat(f) && (stack == [] ==> root.Some?)
    ensures Run(s, at, stack, root) == Run(s, at + |f|, stack, root)
    decreases |f|
  {
    if f != [] {
      assert s[at] == f[0];
      var n := if f[0] == ESCAPE then 2 else 1;
      assert f == f[..n] + f[n..];
      AtParts(s, at, f[..n], f[n..]);
      RunFlat(s, at + n, f[n..], stack, root);
    }
  }

  /** The frame after its kids, whose text starts at byte at, have been parsed. */
  ghost function Adopted(f: Frame, kids: seq<Kid>, at: nat): Frame {
    if kids == [] then f else Marked(f, at).(children := f.children + KidShapes(kids, at))
  }

  lemma RunStart(s: seq<Byte>, at: nat, stack: seq<Frame>, f: Frame, root: Option<Node>)
    requires at + 1 < |s| && s[at] == START
    ensures Run(s, at, stack + [f], root)
            == Run(s, at + 2, (stack + [Marked(f, at)]) + [Frame(s[at + 1], at + 2, None, [])], root)
  {
    assert Mark(stack + [f], at) == stack + [Marked(f, at)];
  }

  lemma RunEnd(s: seq<Byte>, at: nat, stack: seq<Frame>, parent: Frame, top: Frame, root: Option<Node>)
    requires at < |s| && s[at] == END
    ensures Run(s, at, (stack + [parent]) + [top], root)
            == Run(s, at + 1, stack + [parent.(children := parent.children + [Closed(top, at)])], root)
  {
    var full := (stack + [parent]) + [top];
    assert full[..|full| - 2] == stack;
  }

  lemma RunLastEnd(s: seq<Byte>, at: nat, top: Frame, root: Option<Node>)
    requires at < |s| && s[at] == END
    ensures Run(s, at, [top], root) == Run(s, at + 1, [], Some(Closed(top, at)))
  {
  }

  lemma TextIs(l: Layout)
    ensures Text(l) == [START, l.tag] + (l.props + (KidsText(l.kids) + [END]))
  {
  }

  lemma NodeParts(s: seq<Byte>, at: nat, l: Layout)
    requires At(s, at, Text(l))
    ensures at + 1 < |s| && s[at] == START && s[at + 1] == l.tag
    ensures At(s, at + 2, l.props) && At(s, at + 2 + |l.props|, KidsText(l.kids))
    ensures var endAt := at + 2 + |l.props| + |KidsText(l.kids)|;
            endAt < |s| && s[endAt] == END && at + |Text(l)| == endAt + 1
  {
    hide *;
    var head, kids := [START, l.tag], KidsText(l.kids);
    TextIs(l);
    AtParts(s, at, head, l.props + (kids + [END]));
    AtParts(s, at + 2, l.props, kids + [END]);
    AtParts(s, at + 2 + |l.props|, kids, [END]);
    AtByte(s, at + 2 + |l.props| + |kids|, END);
    AtTwo(s, at, START, l.tag);
  }

  /** The frame of a node whose kids are parsed closes to the shape of its layout. */
  lemma ClosedShape(l: Layout, at: nat)
    ensures var kidsAt := at + 2 + |l.props|;
            Closed(Adopted(Frame(l.tag, at + 2, None, []), l.kids, kidsAt), kidsAt + |KidsText(l.kids)|) ==
            ShapeOf(l, at)
  {
    assert [] + KidShapes(l.kids, at + 2 + |l.props|) == KidShapes(l.kids, at + 2 + |l.props|);
  }

  lemma {:induction false} RunNode(s: seq<Byte>, at: nat, stack: seq<Frame>, f: Frame, root: Option<Node>, l: Layout)
    requires At(s, at, Text(l)) && Flat(l.props) && KidsWellFormed(l.kids)
    ensures Run(s, at, stack + [f], root)
            == Run(s, at + |Text(l)|,
                   stack + [Marked(f, at).(children := Marked(f, at).children + [ShapeOf(l, at)])], root)
    decreases l, 1
  {
    hide *;
    var kidsAt := at + 2 + |l.props|;
    var endAt := kidsAt + |KidsText(l.kids)|;
    var open := Frame(l.tag, at + 2, None, []);
    var below := stack + [Marked(f, at)];
    NodeParts(s, at, l);
    RunStart(s, at, stack, f, root);
    RunFlat(s, at + 2, l.props, below + [open], root);
    RunKids(s, kidsAt, below, open, root, l.kids);
    ClosedShape(l, at);
    RunEnd(s, endAt, stack, Marked(f, at), Adopted(open, l.kids, kidsAt), root);
  }

  lemma KidsTextIs(kids: seq<Kid>)
    requires kids != []
    ensures KidsText(kids) == Text(kids[0].node) + (kids[0].gap + KidsText(kids[1..]))
    ensures KidsWellFormed(kids) <==>
              && Flat(kids[0].node.props) && KidsWellFormed(kids[0].node.kids)
              && Flat(kids[0].gap) && KidsWellFormed(kids[1..])
  {
  }

  /** How the first kid, its gap and the other kids make up the text and the frame. */
  lemma KidParts(s: seq<Byte>, at: nat, f: Frame, kids: seq<Kid>)
    requires kids != [] && At(s, at, KidsText(kids)) && KidsWellFormed(kids)
    ensures At(s, at, Text(kids[0].node)) && Flat(kids[0].node.props) && KidsWellFormed(kids[0].node.kids)
    ensures At(s, at + |Text(kids[0].node)|, kids[0].gap) && Flat(kids[0].gap)
    ensures At(s, at + |Text(kids[0].node)| + |kids[0].gap|, KidsText(kids[1..])) && KidsWellFormed(kids[1..])
    ensures |KidsText(kids)| == |Text(kids[0].node)| + |kids[0].gap| + |KidsText(kids[1..])|
    ensures Adopted(Marked(f, at).(children := Marked(f, at).children + [ShapeOf(kids[0].node, at)]), kids[1..],
                    at + |Text(kids[0].node)| + |kids[0].gap|)
            == Adopted(f, kids, at)
  {
    hide *;
    var l, gap, rest := kids[0].node, kids[0].gap, kids[1..];
    KidsTextIs(kids);
    AtParts(s, at, Text(l), gap + KidsText(rest));
    AtParts(s, at + |Text(l)|, gap, KidsText(rest));
    AdoptedKids(f, kids, at);
  }

  lemma AdoptedKids(f: Frame, kids: seq<Kid>, at: nat)
    requires kids != []
    ensures Adopted(Marked(f, at).(children := Marked(f, at).children + [ShapeOf(kids[0].node, at)]), kids[1..],
                    at + |Text(kids[0].node)| + |kids[0].gap|)
            == Adopted(f, kids, at)
  {
    var restAt := at + |Text(kids[0].node)| + |kids[0].gap|;
    assert f.children + ([ShapeOf(kids[0].node, at)] + KidShapes(kids[1..], restAt))
           == f.children + [ShapeOf(kids[0].node, at)] + KidShapes(kids[1..], restAt);
  }

  lemma {:induction false} RunKids(s: seq<Byte>, at: nat, stack: seq<Frame>, f: Frame, root: Option<Node>,
                                   kids: seq<Kid>)
    requires At(s, at, KidsText(kids)) && KidsWellFormed(kids)
    ensures Run(s, at, stack + [f], root) == Run(s, at + |KidsText(kids)|, stack + [Adopted(f, kids, at)], root)
    decreases kids, 0
  {
    hide *;
    if kids == [] {
      NoKids(f, kids, at);
    } else {
      var l, gap := kids[0].node, kids[0].gap;
      var gapAt := at + |Text(l)|;
      var one := Marked(f, at).(children := Marked(f, at).children + [ShapeOf(l, at)]);
      KidParts(s, at, f, kids);
      RunNode(s, at, stack, f, root, l);
      RunFlat(s, gapAt, gap, stack + [one], root);
      RunKids(s, gapAt + |gap|, stack, one, root, kids[1..]);
    }
  }

  lemma NoKids(f: Frame, kids: seq<Kid>, at: nat)
    requires kids == []
    ensures Adopted(f, kids, at) == f && KidsText(kids) == []
  {
  }

  /** A file holding the layout l and, after it, bytes without node markers. */
  ghost predicate Holds(file: seq<Byte>, l: Layout, junk: seq<Byte>) {
    && WellFormed(l) && Flat(junk)
    && |file| >= IDENTIFIER_SIZE && file[IDENTIFIER_SIZE..] == Text(l) + junk
  }

  ghost predicate Opens(file: seq<Byte>, accepted: seq<Byte>) {
    |file| > MINIMAL_SIZE && (file[..IDENTIFIER_SIZE] == accepted || file[..IDENTIFIER_SIZE] == [0, 0, 0, 0])
  }

  /** The loader reports exactly the shape of the layout a file holds. */
  lemma HeldLayoutIsLoaded(file: seq<Byte>, accepted: seq<Byte>, l: Layout, junk: seq<Byte>)
    requires |accepted| == IDENTIFIER_SIZE && Opens(file, accepted) && Holds(file, l, junk)
    ensures Load(file, accepted) == Parsed(ShapeOf(l, IDENTIFIER_SIZE))
  {
    assert At(file, 4, Text(l) + junk);
    AtParts(file, 4, Text(l), junk);
    HeldNode(file, l, junk);
  }

  lemma HeldNode(s: seq<Byte>, l: Layout, junk: seq<Byte>)
    requires At(s, 4, Text(l)) && Flat(l.props) && KidsWellFormed(l.kids)
    requires At(s, 4 + |Text(l)|, junk) && 4 + |Text(l)| + |junk| == |s| && Flat(junk)
    ensures |s| > 6 && s[4] == START && Run(s, 6, [Frame(s[5], 6, None, [])], None) == Parsed(ShapeOf(l, 4))
  {
    hide *;
    var kidsAt := 6 + |l.props|;
    var endAt := kidsAt + |KidsText(l.kids)|;
    var open := Frame(l.tag, 6, None, []);
    var done := Adopted(open, l.kids, kidsAt);
    NodeParts(s, 4, l);
    RunFlat(s, 6, l.props, [open], None);
    assert [] + [open] == [open] && [] + [done] == [done];
    RunKids(s, kidsAt, [], open, None, l.kids);
    ClosedShape(l, 4);
    RunLastEnd(s, endAt, done, None);
    RunFlat(s, endAt + 1, junk, [], Some(ShapeOf(l, 4)));
    RunOut(s, |s|, Some(ShapeOf(l, 4)));
  }

  lemma RunOut(s: seq<Byte>, at: nat, root: Option<Node>)
    requires at == |s| && root.Some?
    ensures Run(s, at, [], root) == Parsed(root.value)
  {
  }

  // ---------------------------------------------------------------- only layouts are accepted

  /** The text from at to e: flat bytes, then kids. */
  ghost predicate Inner(s: seq<Byte>, at: nat, f: seq<Byte>, kids: seq<Kid>, e: nat) {
    Flat(f) && KidsWellFormed(kids) && at <= e < |s| && s[e] == END && s[at..e] == f + KidsText(kids)
  }

  lemma SkippedUnit(s: seq<Byte>, at: nat, n: nat, f: seq<Byte>, kids: seq<Kid>, e: nat)
    requires at + n <= |s| && Inner(s, at + n, f, kids, e)
    requires (n == 1 && s[at] != START && s[at] != END && s[at] != ESCAPE) || (n == 2 && s[at] == ESCAPE)
    ensures Inner(s, at, s[at..at + n] + f, kids, e)
  {
    assert s[at..e] == s[at..at + n] + s[at + n..e];
    assert s[at..at + n] + f + KidsText(kids) == s[at..at + n] + (f + KidsText(kids));
    assert (s[at..at + n] + f)[n..] == f;
  }

  lemma KidAt(s: seq<Byte>, at: nat, l: Layout, e: nat)
    requires at + 2 <= |s| && s[at] == START && s[at + 1] == l.tag && Inner(s, at + 2, l.props, l.kids, e)
    ensures At(s, at, Text(l)) && at + |Text(l)| == e + 1 && WellFormed(l)
  {
    hide *;
    InnerIs(s, at + 2, l.props, l.kids, e);
    TextIs(l);
    AtParts(s, at + 2, l.props, KidsText(l.kids));
    AtByte(s, e, END);
    AtParts(s, e - |KidsText(l.kids)|, KidsText(l.kids), [END]);
    AtParts(s, at + 2, l.props, KidsText(l.kids) + [END]);
    AtTwo(s, at, START, l.tag);
    AtParts(s, at, [START, l.tag], l.props + (KidsText(l.kids) + [END]));
    WellFormedIs(l);
  }

  lemma InnerIs(s: seq<Byte>, at: nat, f: seq<Byte>, kids: seq<Kid>, e: nat)
    ensures Inner(s, at, f, kids, e) <==>
              && Flat(f) && KidsWellFormed(kids) && at <= e < |s| && s[e] == END
              && At(s, at, f + KidsText(kids)) && e == at + |f| + |KidsText(kids)|
  {
  }

  lemma WellFormedIs(l: Layout)
    ensures WellFormed(l) <==> Flat(l.props) && KidsWellFormed(l.kids)
  {
  }

  lemma ConsKid(l: Layout, f: seq<Byte>, kids: seq<Kid>)
    ensures [] + KidsText([Kid(l, f)] + kids) == Text(l) + (f + KidsText(kids))
    ensures KidsWellFormed([Kid(l, f)] + kids) <==> WellFormed(l) && Flat(f) && KidsWellFormed(kids)
  {
    assert ([Kid(l, f)] + kids)[1..] == kids;
    assert [] + KidsText([Kid(l, f)] + kids) == KidsText([Kid(l, f)] + kids);
  }

  lemma NothingIsFlat()
    ensures Flat([])
  {
  }

  lemma FirstKid(s: seq<Byte>, at: nat, l: Layout, e1: nat, f: seq<Byte>, kids: seq<Kid>, e: nat)
    requires at + 2 <= |s| && s[at] == START && s[at + 1] == l.tag && Inner(s, at + 2, l.props, l.kids, e1)
    requires Inner(s, e1 + 1, f, kids, e)
    ensures Inner(s, at, [], [Kid(l, f)] + kids, e)
  {
    hide *;
    KidAt(s, at, l, e1);
    InnerIs(s, e1 + 1, f, kids, e);
    AtParts(s, at, Text(l), f + KidsText(kids));
    ConsKid(l, f, kids);
    NothingIsFlat();
    InnerIs(s, at, [], [Kid(l, f)] + kids, e);
  }

  /** A run that succeeds closes its open node: what is read until then is flat bytes and well-formed kids. */
  lemma {:induction false} Closing(s: seq<Byte>, at: nat, stack: seq<Frame>, f: Frame, root: Option<Node>)
    returns (props: seq<Byte>, kids: seq<Kid>, e: nat)
    requires at <= |s| && Run(s, at, stack + [f], root).Parsed?
    ensures Inner(s, at, props, kids, e)
    decreases |s| - at
  {
    if s[at] == START {
      var open := Frame(s[at + 1], at + 2, None, []);
      RunStart(s, at, stack, f, root);
      var p1, k1, e1 := Closing(s, at + 2, stack + [Marked(f, at)], open, root);
      var l := Layout(s[at + 1], p1, k1);
      KidAt(s, at, l, e1);
      RunNode(s, at, stack, f, root, l);
      var gap, rest;
      gap, rest, e := Closing(s, e1 + 1, stack,
                              Marked(f, at).(children := Marked(f, at).children + [ShapeOf(l, at)]), root);
      FirstKid(s, at, l, e1, gap, rest, e);
      props, kids := [], [Kid(l, gap)] + rest;
    } else if s[at] == END {
      props, kids, e := [], [], at;
      assert s[at..e] == [];
    } else {
      var n := if s[at] == ESCAPE then 2 else 1;
      props, kids, e := Closing(s, at + n, stack, f, root);
      SkippedUnit(s, at, n, props, kids, e);
      props := s[at..at + n] + props;
    }
  }

  lemma {:induction false} TailIsFlat(s: seq<Byte>, at: nat, root: Option<Node>)
    requires at <= |s| && root.Some? && Run(s, at, [], root).Parsed?
    ensures Flat(s[at..])
    decreases |s| - at
  {
    if at < |s| {
      var n := if s[at] == ESCAPE then 2 else 1;
      TailIsFlat(s, at + n, root);
      assert s[at..][n..] == s[at + n..];
    }
  }

  /** Whatever the loader accepts is a well-formed layout followed by bytes without node markers. */
  lemma LoadedFileHoldsLayout(file: seq<Byte>, accepted: seq<Byte>) returns (l: Layout, junk: seq<Byte>)
    requires |accepted| == IDENTIFIER_SIZE && Load(file, accepted).Parsed?
    ensures Opens(file, accepted) && Holds(file, l, junk)
    ensures Load(file, accepted) == Parsed(ShapeOf(l, IDENTIFIER_SIZE))
  {
    var open := Frame(file[5], 6, None, []);
    assert [] + [open] == [open];
    var props, kids, e := Closing(file, 6, [], open, None);
    l, junk := Layout(file[5], props, kids), file[e + 1..];
    KidAt(file, 4, l, e);
    assert file[4..] == file[4..e + 1] + junk;
    RootClosed(file, l, e);
    HeldLayoutIsLoaded(file, accepted, l, junk);
  }

  lemma RootClosed(s: seq<Byte>, l: Layout, e: nat)
    requires |s| > 6 && s[4] == START && s[5] == l.tag && Inner(s, 6, l.props, l.kids, e)
    requires Run(s, 6, [Frame(s[5], 6, None, [])], None).Parsed?
    ensures Flat(s[e + 1..])
  {
    hide *;
    var kidsAt := 6 + |l.props|;
    var open := Frame(l.tag, 6, None, []);
    var done := Adopted(open, l.kids, kidsAt);
    assert [] + [open] == [open] && [] + [done] == [done];
    InnerIs(s, 6, l.props, l.kids, e);
    KidAt(s, 4, l, e);
    NodeParts(s, 4, l);
    RunFlat(s, 6, l.props, [open], None);
    RunKids(s, kidsAt, [], open, None, l.kids);
    RunLastEnd(s, e, done, None);
    TailIsFlat(s, e + 1, Some(Closed(done, e)));
  }

  /** A file is accepted if and only if it opens and holds a well-formed layout; unbalanced input never is. */
  lemma AcceptedIffLayout(file: seq<Byte>, accepted: seq<Byte>)
    requires |accepted| == IDENTIFIER_SIZE
    ensures Load(file, accepted).Parsed? <==>
              Opens(file, accepted) && exists l, junk :: Holds(file, l, junk)
  {
    if Load(file, accepted).Parsed? {
      var l, junk := LoadedFileHoldsLayout(file, accepted);
    }
    if Opens(file, accepted) && exists l, junk :: Holds(file, l, junk) {
      var l, junk :| Holds(file, l, junk);
      HeldLayoutIsLoaded(file, accepted, l, junk);
    }
  }

  // ---------------------------------------------------------------- escaping

  /** Every escape byte is dropped and the byte after it kept as it is; an escape at the very end disappears. */
  function Unescape(s: seq<Byte>): seq<Byte> {
    if s == [] then []
    else if s[0] == ESCAPE then
      if |s| == 1 then [] else [s[1]] + Unescape(s[2..])
    else [s[0]] + Unescape(s[1..])
  }

  function Escape(s: seq<Byte>): seq<Byte> {
    if s == [] then []
    else (if s[0] >= ESCAPE then [ESCAPE, s[0]] else [s[0]]) + Escape(s[1..])
  }

  lemma {:induction false} EscapeRoundTrip(s: seq<Byte>)
    ensures Unescape(Escape(s)) == s && Flat(Escape(s))
    ensures Escape(s) == [] <==> s == []
  {
    if s != [] {
      var e := Escape(s[1..]);
      EscapeRoundTrip(s[1..]);
      if s[0] >= ESCAPE {
        assert Escape(s)[2..] == e && Escape(s)[0] == ESCAPE && Escape(s)[1] == s[0];
      } else {
        assert Escape(s)[1..] == e && Escape(s)[0] == s[0];
      }
      assert s == [s[0]] + s[1..];
    }
  }

  /** Without escapes there is nothing to do: the loader may hand out the range itself. */
  lemma {:induction false} UnescapePlain(s: seq<Byte>)
    requires ESCAPE !in s
    ensures Unescape(s) == s
  {
    if s != [] {
      UnescapePlain(s[1..]);
    }
  }

  /** A clean run in front is copied. */
  lemma {:induction false} UnescapeRun(run: seq<Byte>, rest: seq<Byte>)
    requires ESCAPE !in run
    ensures Unescape(run + rest) == run + Unescape(rest)
  {
    if run == [] {
      assert run + rest == rest;
    } else {
      assert (run + rest)[1..] == run[1..] + rest;
      UnescapeRun(run[1..], rest);
    }
  }

  // ---------------------------------------------------------------- property ranges of a loaded tree

  /** Every property range in the tree lies in the file and is flat: no escape dangles in it. */
  ghost predicate RangesFlat(file: seq<Byte>, n: Node) {
    n.begin <= n.end <= |file| && Flat(file[n.begin..n.end]) && AllRangesFlat(file, n.children)
  }

  ghost predicate AllRangesFlat(file: seq<Byte>, ns: seq<Node>) {
    ns == [] || (RangesFlat(file, ns[0]) && AllRangesFlat(file, ns[1..]))
  }

  lemma {:induction false} ShapeRangesFlat(s: seq<Byte>, l: Layout, at: nat)
    requires At(s, at, Text(l)) && WellFormed(l)
    ensures RangesFlat(s, ShapeOf(l, at))
    decreases l, 1
  {
    NodeParts(s, at, l);
    KidRangesFlat(s, l.kids, at + 2 + |l.props|);
  }

  lemma FirstRange(s: seq<Byte>, kids: seq<Kid>, at: nat)
    ensures kids == [] ==> AllRangesFlat(s, KidShapes(kids, at))
    ensures kids != [] ==>
              (AllRangesFlat(s, KidShapes(kids, at)) <==>
               && RangesFlat(s, ShapeOf(kids[0].node, at))
               && AllRangesFlat(s, KidShapes(kids[1..], at + |Text(kids[0].node)| + |kids[0].gap|)))
  {
    if kids != [] {
      var shapes := KidShapes(kids, at);
      assert shapes[1..] == KidShapes(kids[1..], at + |Text(kids[0].node)| + |kids[0].gap|);
    }
  }

  lemma {:induction false} KidRangesFlat(s: seq<Byte>, kids: seq<Kid>, at: nat)
    requires At(s, at, KidsText(kids)) && KidsWellFormed(kids)
    ensures AllRangesFlat(s, KidShapes(kids, at))
    decreases kids, 0
  {
    hide *;
    FirstRange(s, kids, at);
    if kids != [] {
      KidParts(s, at, Frame(0, 0, None, []), kids);
      WellFormedIs(kids[0].node);
      ShapeRangesFlat(s, kids[0].node, at);
      KidRangesFlat(s, kids[1..], at + |Text(kids[0].node)| + |kids[0].gap|);
    }
  }

  lemma LoadedRangesFlat(file: seq<Byte>, accepted: seq<Byte>)
    requires |accepted| == IDENTIFIER_SIZE && Load(file, accepted).Parsed?
    ensures RangesFlat(file, Load(file, accepted).root)
  {
    var l, junk := LoadedFileHoldsLayout(file, accepted);
    assert At(file, 4, Text(l) + junk);
    AtParts(file, 4, Text(l), junk);
    ShapeRangesFlat(file, l, 4);
  }

  // ---------------------------------------------------------------- trees and the round trip

  datatype Tree = Tree(tag: Byte, props: seq<Byte>, children: seq<Tree>)

  /** The writer of the format: the type byte raw, the properties escaped. */
  ghost function Encode(t: Tree): seq<Byte> {
    [START, t.tag] + (Escape(t.props) + (EncodeAll(t.children) + [END]))
  }

  ghost function EncodeAll(ts: seq<Tree>): seq<Byte> {
    if ts == [] then [] else Encode(ts[0]) + EncodeAll(ts[1..])
  }

  /** What a caller sees of a loaded node: its type, the bytes getProps returns, and its children. */
  ghost function Decode(file: seq<Byte>, n: Node): Tree {
    Tree(n.tag, if n.begin <= n.end <= |file| then Unescape(file[n.begin..n.end]) else [], DecodeAll(file, n.children))
  }

  ghost function DecodeAll(file: seq<Byte>, ns: seq<Node>): seq<Tree> {
    if ns == [] then [] else [Decode(file, ns[0])] + DecodeAll(file, ns[1..])
  }

  ghost function LayoutOf(t: Tree): Layout {
    Layout(t.tag, Escape(t.props), KidsOf(t.children))
  }

  ghost function KidsOf(ts: seq<Tree>): seq<Kid> {
    if ts == [] then [] else [Kid(LayoutOf(ts[0]), [])] + KidsOf(ts[1..])
  }

  lemma {:induction false} EncodeIsText(t: Tree)
    ensures Encode(t) == Text(LayoutOf(t)) && WellFormed(LayoutOf(t))
    decreases t, 1
  {
    EscapeRoundTrip(t.props);
    EncodeAllIsText(t.children);
  }

  lemma {:induction false} EncodeAllIsText(ts: seq<Tree>)
    ensures EncodeAll(ts) == KidsText(KidsOf(ts)) && KidsWellFormed(KidsOf(ts))
    decreases ts, 0
  {
    if ts != [] {
      EncodeIsText(ts[0]);
      EncodeAllIsText(ts[1..]);
      var kids := KidsOf(ts);
      assert kids[1..] == KidsOf(ts[1..]);
      assert kids[0].gap + KidsText(kids[1..]) == KidsText(kids[1..]);
    }
  }

  lemma DecodedNode(s: seq<Byte>, at: nat, t: Tree)
    requires at + 2 + |Escape(t.props)| <= |s| && s[at + 2..at + 2 + |Escape(t.props)|] == Escape(t.props)
    ensures Decode(s, ShapeOf(LayoutOf(t), at))
            == Tree(t.tag, t.props, DecodeAll(s, KidShapes(KidsOf(t.children), at + 2 + |Escape(t.props)|)))
  {
    EscapeRoundTrip(t.props);
  }

  lemma LayoutOfIs(t: Tree)
    ensures LayoutOf(t) == Layout(t.tag, Escape(t.props), KidsOf(t.children))
  {
  }

  lemma {:induction false} DecodeShape(s: seq<Byte>, at: nat, t: Tree)
    requires At(s, at, Text(LayoutOf(t)))
    ensures Decode(s, ShapeOf(LayoutOf(t), at)) == t
    decreases t, 1
  {
    hide *;
    NodeParts(s, at, LayoutOf(t));
    LayoutOfIs(t);
    AtSlice(s, at + 2, Escape(t.props));
    DecodedNode(s, at, t);
    DecodeShapes(s, at + 2 + |Escape(t.props)|, t.children);
  }

  lemma DecodeFirst(s: seq<Byte>, n: Node, ns: seq<Node>)
    ensures DecodeAll(s, [n] + ns) == [Decode(s, n)] + DecodeAll(s, ns)
  {
    assert ([n] + ns)[1..] == ns;
  }

  lemma FirstKidOf(ts: seq<Tree>)
    requires ts != []
    ensures KidsOf(ts) != [] && KidsOf(ts)[0] == Kid(LayoutOf(ts[0]), []) && KidsOf(ts)[1..] == KidsOf(ts[1..])
  {
  }

  lemma {:induction false} DecodeShapes(s: seq<Byte>, at: nat, ts: seq<Tree>)
    requires At(s, at, KidsText(KidsOf(ts)))
    ensures DecodeAll(s, KidShapes(KidsOf(ts), at)) == ts
    decreases ts, 0
  {
    hide *;
    if ts == [] {
      NoShapes(s, at, ts);
    } else {
      var l, rest := LayoutOf(ts[0]), KidsOf(ts[1..]);
      var restAt := at + |Text(l)|;
      EncodeAllIsText(ts);
      FirstKidOf(ts);
      KidParts(s, at, Frame(0, 0, None, []), KidsOf(ts));
      DecodeShape(s, at, ts[0]);
      DecodeShapes(s, restAt, ts[1..]);
      FirstShape(ts, at);
      DecodeFirst(s, ShapeOf(l, at), KidShapes(rest, restAt));
      assert ts == [ts[0]] + ts[1..];
    }
  }

  lemma NoShapes(s: seq<Byte>, at: nat, ts: seq<Tree>)
    requires ts == []
    ensures DecodeAll(s, KidShapes(KidsOf(ts), at)) == []
  {
  }

  lemma FirstShape(ts: seq<Tree>, at: nat)
    requires ts != []
    ensures KidShapes(KidsOf(ts), at)
            == [ShapeOf(LayoutOf(ts[0]), at)] + KidShapes(KidsOf(ts[1..]), at + |Text(LayoutOf(ts[0]))|)
  {
    FirstKidOf(ts);
  }

  /**
   * A tree written with an accepted identifier loads back as the same tree exactly when it has properties or
   * children: a bare root is three bytes, and a file of seven bytes is refused as too short.
   */
  lemma RoundTrip(t: Tree, identifier: seq<Byte>)
    requires |identifier| == IDENTIFIER_SIZE
    ensures var r := Load(identifier + Encode(t), identifier);
            && (r.Parsed? <==> t.props != [] || t.children != [])
            && (r.Parsed? ==> Decode(identifier + Encode(t), r.root) == t)
  {
    var file, l := identifier + Encode(t), LayoutOf(t);
    EncodeIsText(t);
    EscapeRoundTrip(t.props);
    EncodedSize(t);
    if t.props != [] || t.children != [] {
      assert file[..4] == identifier && file[4..] == Text(l) + [];
      HeldLayoutIsLoaded(file, identifier, l, []);
      assert At(file, 4, Text(l));
      DecodeShape(file, 4, t);
    }
  }

  lemma EncodedSize(t: Tree)
    ensures |Encode(t)| >= 3 && (|Encode(t)| == 3 <==> t.props == [] && t.children == [])
  {
    EscapeRoundTrip(t.props);
    if t.children != [] {
      assert |Encode(t.children[0])| >= 3;
    }
  }
}
