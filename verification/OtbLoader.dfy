/** The OTB loader (src/io/fileloader.cpp): an iterative parser with an explicit
    stack of nodes that are changed while they are open, and the property reader.

    `Parse` is the run of the parser on values, with the open nodes as records;
    `Loader.ParseTree` works on node objects and is proved against it.
  */
module OtbLoader {
  import opened OtbFormat

  /** A node on the stack; `end` counts once it has a child. */
  datatype OpenNode = OpenNode(ntype: byte, begin: int, end: int, kids: seq<Span>)

  datatype Outcome = Malformed | Parsed(root: Span)

  function Opened(o: OpenNode, i: int): OpenNode
  {
    if o.kids == [] then o.(end := i) else o
  }

  function Close(o: OpenNode, i: int): Span
  {
    Span(o.ntype, o.begin, if o.kids == [] then i else o.end, o.kids)
  }

  function Attach(o: OpenNode, s: Span): OpenNode
  {
    o.(kids := o.kids + [s])
  }

  /** The rest of a run, from position i with the given open nodes; `root` is the root once it is closed. */
  function Parse(data: Bytes, i: nat, stack: seq<OpenNode>, root: Span): Outcome
    requires i <= |data|
    decreases |data| - i
  {
    var n := |stack|;
    if i == |data| then (if n == 0 then Parsed(root) else Malformed)
    else if data[i] == START then
      if n == 0 || i + 1 == |data| then Malformed
      else Parse(data, i + 2, stack[..n - 1] + [Opened(stack[n - 1], i), OpenNode(data[i + 1], i + 2, 0, [])], root)
    else if data[i] == END then
      if n == 0 then Malformed
      else if n == 1 then Parse(data, i + 1, [], Close(stack[0], i))
      else Parse(data, i + 1, stack[..n - 2] + [Attach(stack[n - 2], Close(stack[n - 1], i))], root)
    else if data[i] == ESCAPE then
      if i + 1 == |data| then Malformed else Parse(data, i + 2, stack, root)
    else Parse(data, i + 1, stack, root)
  }

  const IDENTIFIER_SIZE: nat := 4
  const MINIMAL_SIZE: nat := 7

  function NoSpan(): Span
  {
    Span(0, 0, 0, [])
  }

  /** The whole of parseTree on a file that passed the size check. */
  function ParseFile(file: Bytes): Outcome
    requires |file| > MINIMAL_SIZE
  {
    if file[4] != START then Malformed else Parse(file, 6, [OpenNode(file[5], 6, 0, [])], NoSpan())
  }

  class Node {
    var ntype: byte
    var propsBegin: int
    var propsEnd: int
    var children: seq<Node>
    ghost var span: Span

    constructor ()
      ensures children == []
    {
      ntype, propsBegin, propsEnd, children, span := 0, 0, 0, [], NoSpan();
    }
  }

  /** The object graph below n is the tree s. */
  ghost predicate Represents(n: Node, s: Span)
    reads *
    decreases s
  {
    n.ntype == s.ntype && n.propsBegin == s.begin && n.propsEnd == s.end &&
    |n.children| == |s.children| &&
    forall k :: 0 <= k < |s.children| ==> Represents(n.children[k], s.children[k])
  }

  /** The first spans of a node's children are these, and the children are closed. */
  ghost predicate Holds(nodes: seq<Node>, spans: seq<Span>, done: set<Node>)
    reads nodes
  {
    |nodes| >= |spans| && forall k :: 0 <= k < |spans| ==> nodes[k] in done && nodes[k].span == spans[k]
  }

  /** A closed node agrees with its span one level down. */
  ghost predicate Closed(n: Node, done: set<Node>)
    reads n, n.children
  {
    n.ntype == n.span.ntype && n.propsBegin == n.span.begin && n.propsEnd == n.span.end &&
    |n.children| == |n.span.children| && Holds(n.children, n.span.children, done)
  }

  lemma {:induction false} ClosedRepresents(n: Node, done: set<Node>)
    requires n in done && forall m :: m in done ==> Closed(m, done)
    ensures Represents(n, n.span)
    decreases n.span
  {
    forall k | 0 <= k < |n.span.children|
      ensures Represents(n.children[k], n.span.children[k])
    {
      assert Closed(n, done);
      ClosedRepresents(n.children[k], done);
    }
  }

  /** Stack level k: the node is the record, plus the child that is open above it. */
  ghost predicate Level(stack: seq<Node>, opens: seq<OpenNode>, k: nat, done: set<Node>)
    requires k < |stack| == |opens|
    reads stack, stack[k].children
  {
    var n, o, above := stack[k], opens[k], if k + 1 < |stack| then 1 else 0;
    n !in done && n.ntype == o.ntype && n.propsBegin == o.begin &&
    (o.kids != [] || above == 1 ==> n.propsEnd == o.end) &&
    |n.children| == |o.kids| + above && Holds(n.children, o.kids, done) &&
    (above == 1 ==> n.children[|o.kids|] == stack[k + 1])
  }

  ghost predicate Tracks(stack: seq<Node>, opens: seq<OpenNode>, done: set<Node>)
    reads *
  {
    |stack| == |opens| &&
    (forall j, k :: 0 <= j < k < |stack| ==> stack[j] != stack[k]) &&
    (forall k :: 0 <= k < |stack| ==> Level(stack, opens, k, done)) &&
    (forall n :: n in done ==> Closed(n, done))
  }

  /** START inside a node: a new child is appended to the node on top and opened. False: the type is missing. */
  method OpenChild(data: Bytes, it: nat, stack: seq<Node>, ghost opens: seq<OpenNode>, ghost done: set<Node>)
    returns (ok: bool, stack': seq<Node>, ghost opens': seq<OpenNode>)
    requires it < |data| && stack != [] && Tracks(stack, opens, done)
    modifies stack[|stack| - 1]
    ensures ok <==> it + 1 < |data|
    ensures ok ==>
      opens' == opens[..|opens| - 1] + [Opened(opens[|opens| - 1], it), OpenNode(data[it + 1], it + 2, 0, [])] &&
      |stack'| == |stack| + 1 && stack'[..|stack|] == stack && fresh(stack'[|stack|]) &&
      Tracks(stack', opens', done)
    ensures forall n :: n in done ==> n.span == old(n.span)
  {
    var currentNode := stack[|stack| - 1];
    assert Level(stack, opens, |stack| - 1, done);
    if currentNode.children == [] {
      currentNode.propsEnd := it;
    }
    var child := new Node();
    currentNode.children := currentNode.children + [child];
    if it + 1 == |data| {
      return false, stack, opens;
    }
    child.ntype := data[it + 1];
    child.propsBegin := it + 2;
    stack' := stack + [child];
    opens' := opens[..|opens| - 1] + [Opened(opens[|opens| - 1], it), OpenNode(data[it + 1], it + 2, 0, [])];
    ok := true;
    forall k | 0 <= k < |stack'|
      ensures Level(stack', opens', k, done)
    {
      if k < |stack| {
        assert old(Level(stack, opens, k, done));
      }
    }
    assert forall n :: n in done ==> old(Closed(n, done));
  }

  /** END: the node on top is closed. */
  method CloseNode(it: nat, stack: seq<Node>, ghost opens: seq<OpenNode>, ghost done: set<Node>)
    returns (stack': seq<Node>, ghost opens': seq<OpenNode>, ghost done': set<Node>)
    requires stack != [] && Tracks(stack, opens, done)
    modifies stack[|stack| - 1]
    ensures var n := |stack|; var s := Close(opens[n - 1], it);
      stack' == stack[..n - 1] && done' == done + {stack[n - 1]} && stack[n - 1].span == s &&
      opens' == (if n == 1 then [] else opens[..n - 2] + [Attach(opens[n - 2], s)]) &&
      Tracks(stack', opens', done')
    ensures forall n :: n in done ==> n.span == old(n.span)
  {
    var n := |stack|;
    var currentNode := stack[n - 1];
    assert Level(stack, opens, n - 1, done);
    if currentNode.children == [] {
      currentNode.propsEnd := it;
    }
    stack' := stack[..n - 1];
    ghost var s := Close(opens[n - 1], it);
    currentNode.span := s;
    done' := done + {currentNode};
    opens' := if n == 1 then [] else opens[..n - 2] + [Attach(opens[n - 2], s)];
    forall k | 0 <= k < n - 1
      ensures Level(stack', opens', k, done')
    {
      assert old(Level(stack, opens, k, done));
    }
    forall m | m in done'
      ensures Closed(m, done')
    {
      assert m in done ==> old(Closed(m, done));
    }
  }

  class Loader {
    const fileContents: Bytes
    const root: Node
    var propBuffer: Bytes

    ghost predicate Valid()
      reads this
    {
      |fileContents| > MINIMAL_SIZE
    }

    constructor (file: Bytes)
      requires |file| > MINIMAL_SIZE
      ensures Valid() && fileContents == file && fresh(root) && root.children == []
    {
      fileContents, propBuffer := file, [];
      root := new Node();
    }

    /** The loader's constructor, which throws on a short file or a foreign identifier. */
    static method Load(file: Bytes, accepted: Bytes) returns (r: Loader?)
      requires |accepted| == IDENTIFIER_SIZE
      ensures r == null <==>
        |file| <= 7 || (file[..4] != accepted && file[..4] != [0, 0, 0, 0])
      ensures r != null ==> r.Valid() && fresh(r) && fresh(r.root) && r.fileContents == file && r.root.children == []
    {
      if |file| <= MINIMAL_SIZE {
        return null;
      }
      if file[..IDENTIFIER_SIZE] != accepted && file[..IDENTIFIER_SIZE] != [0, 0, 0, 0] {
        return null;
      }
      r := new Loader(file);
    }

    /** Parse the file into the tree below root; false stands for the exception. */
    method ParseTree() returns (ok: bool)
      requires Valid() && root.children == []
      modifies root
      ensures ok <==> ParseFile(fileContents).Parsed?
      ensures ok ==> Represents(root, ParseFile(fileContents).root)
    {
      var data := fileContents;
      var it := IDENTIFIER_SIZE;
      if data[it] != START {
        return false;
      }
      it := it + 1;
      root.ntype := data[it];
      it := it + 1;
      root.propsBegin := it;
      var stack := [root];
      ghost var opens := [OpenNode(data[5], 6, 0, [])];
      ghost var closed: Span := NoSpan();
      ghost var done: set<Node> := {};
      while it < |data|
        invariant 0 <= it <= |data| && Tracks(stack, opens, done)
        invariant Parse(data, it, opens, closed) == ParseFile(data)
        invariant forall k :: 0 <= k < |stack| ==> stack[k] == root || fresh(stack[k])
        invariant if stack == [] then root in done && root.span == closed else stack[0] == root
      {
        if data[it] == START {
          if stack == [] {
            return false;
          }
          var more;
          more, stack, opens := OpenChild(data, it, stack, opens, done);
          if !more {
            return false;
          }
          it := it + 1;
        } else if data[it] == END {
          if stack == [] {
            return false;
          }
          if |stack| == 1 {
            closed := Close(opens[0], it);
          }
          stack, opens, done := CloseNode(it, stack, opens, done);
        } else if data[it] == ESCAPE {
          it := it + 1;
          if it == |data| {
            return false;
          }
        }
        it := it + 1;
      }
      if stack != [] {
        return false;
      }
      ClosedRepresents(root, done);
      return true;
    }

    /** The unescaped properties of a node; false when its span is empty. */
    method GetProps(node: Node) returns (ok: bool, props: Bytes)
      requires 0 <= node.propsBegin <= node.propsEnd <= |fileContents|
      modifies this`propBuffer
      ensures ok <==> node.propsBegin != node.propsEnd
      ensures ok ==> props == Unescape(fileContents[node.propsBegin..node.propsEnd], false)
    {
      if node.propsBegin == node.propsEnd {
        return false, [];
      }
      var lastEscaped := false;
      propBuffer := [];
      ghost var all := fileContents[node.propsBegin..node.propsEnd];
      var p := node.propsBegin;
      while p < node.propsEnd
        invariant node.propsBegin <= p <= node.propsEnd
        invariant propBuffer + Unescape(fileContents[p..node.propsEnd], lastEscaped) == Unescape(all, false)
      {
        var b := fileContents[p];
        assert fileContents[p..node.propsEnd][1..] == fileContents[p + 1..node.propsEnd];
        lastEscaped := b == ESCAPE && !lastEscaped;
        if !lastEscaped {
          propBuffer := propBuffer + [b];
        }
        p := p + 1;
      }
      return true, propBuffer;
    }
  }
}
