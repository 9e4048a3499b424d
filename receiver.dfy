/** The syntax receiver: collects, while the host walks the syntax trees,
    every method declaration that carries at least one attribute list. */
module Receiver {
  import opened Symbols

  /** A node is a candidate when it is a method declaration with attributes. */
  predicate IsCandidate(node: SyntaxNode)
  {
    node.MethodNode? && node.decl.attributeListCount > 0
  }

  /** The candidates among `nodes`, in visit order. */
  function Candidates(nodes: seq<SyntaxNode>): (r: seq<MethodDeclaration>)
    ensures |r| <= |nodes|
    ensures forall d :: d in r ==> d.attributeListCount > 0
  {
    if |nodes| == 0 then []
    else Candidates(nodes[..|nodes| - 1])
         + (if IsCandidate(nodes[|nodes| - 1]) then [nodes[|nodes| - 1].decl] else [])
  }

  /** Collecting distributes over consecutive stretches of the walk, so the
      list keeps the visit order. */
  lemma {:induction false} CandidatesAppend(a: seq<SyntaxNode>, b: seq<SyntaxNode>)
    ensures Candidates(a + b) == Candidates(a) + Candidates(b)
  {
    if |b| == 0 {
      assert a + b == a;
    } else {
      assert (a + b)[..|a + b| - 1] == a + b[..|b| - 1];
      CandidatesAppend(a, b[..|b| - 1]);
    }
  }

  /** A declaration is collected exactly when it was visited with an
      attribute list on it. */
  lemma {:induction false} CandidatesMembership(nodes: seq<SyntaxNode>, d: MethodDeclaration)
    ensures d in Candidates(nodes) <==> MethodNode(d) in nodes && d.attributeListCount > 0
  {
    if |nodes| > 0 {
      var init := nodes[..|nodes| - 1];
      CandidatesMembership(init, d);
      assert nodes == init + [nodes[|nodes| - 1]];
    }
  }

  class SyntaxReceiver {
    var candidateMethods: seq<MethodDeclaration>

    /** Created empty before each generation pass. */
    constructor ()
      ensures candidateMethods == []
    {
      candidateMethods := [];
    }

    /** Called by the host for every syntax node. */
    method OnVisitSyntaxNode(node: SyntaxNode)
      modifies this
      ensures IsCandidate(node) ==> candidateMethods == old(candidateMethods) + [node.decl]
      ensures !IsCandidate(node) ==> candidateMethods == old(candidateMethods)
    {
      if node.MethodNode? && node.decl.attributeListCount > 0 {
        candidateMethods := candidateMethods + [node.decl];
      }
    }
  }

  /** The host's walk: one notification per node, in order. Afterwards the
      receiver holds exactly the candidates of the walk, in visit order. */
  method Walk(receiver: SyntaxReceiver, nodes: seq<SyntaxNode>)
    modifies receiver
    ensures receiver.candidateMethods == old(receiver.candidateMethods) + Candidates(nodes)
  {
    var i := 0;
    while i < |nodes|
      invariant 0 <= i <= |nodes|
      invariant receiver.candidateMethods == old(receiver.candidateMethods) + Candidates(nodes[..i])
    {
      assert nodes[..i + 1][..i] == nodes[..i];
      receiver.OnVisitSyntaxNode(nodes[i]);
      i := i + 1;
    }
    assert nodes[..i] == nodes;
  }
}
