/** Plain records standing in for the compiler's syntax nodes and symbols.
    Symbol identity (what the compiler's default symbol comparer decides) is
    modelled by an opaque identifier compared with `==`. */
module Symbols {

  datatype Option<+T> = None | Some(value: T)

  /** Identity of a symbol (a type, a namespace, an attribute class). */
  type SymbolId = nat

  /** A namespace: its identity and the text `ToDisplayString()` gives for it. */
  datatype NamespaceSymbol = NamespaceSymbol(id: SymbolId, displayName: string)

  /** A named type: its simple name, the symbol that directly contains it and
      the namespace it lives in. For a top-level type the containing symbol is
      that namespace; for a nested type it is the enclosing type. Two type
      symbols are the same symbol exactly when their records are equal (the
      comparison GroupBy makes); `id` keeps apart types that agree on
      everything else. */
  datatype TypeSymbol = TypeSymbol(
    id: SymbolId,
    name: string,
    containingSymbol: SymbolId,
    containingNamespace: NamespaceSymbol)

  /** A parameter: the display text of its type and its name. */
  datatype Parameter = Parameter(typeText: string, name: string)

  /** The declared symbol of a method, as the semantic model resolves it. */
  datatype MethodSymbol = MethodSymbol(
    name: string,
    isAsync: bool,
    isStatic: bool,
    returnTypeName: string,
    parameters: seq<Parameter>,
    attributeClasses: seq<SymbolId>,
    containingType: TypeSymbol)

  /** A method declaration in the syntax tree: how many attribute lists are
      written on it, and the symbol the semantic model binds it to. */
  datatype MethodDeclaration = MethodDeclaration(attributeListCount: nat, symbol: MethodSymbol)

  /** A syntax node the host visits: a method declaration or anything else. */
  datatype SyntaxNode = MethodNode(decl: MethodDeclaration) | OtherNode

  lemma AppendAssoc<T>(a: seq<T>, b: seq<T>, c: seq<T>)
    ensures a + (b + c) == a + b + c
  {
  }

  lemma TakeOneMore<T>(s: seq<T>, i: nat)
    requires i < |s|
    ensures s[..i + 1] == s[..i] + [s[i]]
  {
  }
}
