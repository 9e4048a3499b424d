/** Text emission (AsyncifyGenerator.ProcessClass and ProcessMethod): wrappers
    appended to a shared string builder, between a fixed header and footer. */
module Emission {
  import opened Symbols
  import opened Text
  import opened Derivation

  /** The parts of one wrapper declaration, before they are rendered. */
  datatype Wrapper = Wrapper(
    isStatic: bool,
    returnType: string,
    name: string,
    parameterList: string,
    callee: string,
    argumentList: string)

  /** The wrapper a method gets. */
  function Derive(m: MethodSymbol): Wrapper
  {
    Wrapper(m.isStatic, AsyncReturnType(m.returnTypeName), AsyncName(m.name),
            ParameterList(m.parameters), m.name, ArgumentList(m.parameters))
  }

  /** A method's wrapper keeps its static flag and calls it by its own name;
      the method's name and return type read back from the wrapper's, and,
      for separable parameters, so do the parameters from the parameter text
      and their names, in order, from the argument text. */
  lemma DeriveRecovers(m: MethodSymbol)
    ensures Derive(m).isStatic == m.isStatic && Derive(m).callee == m.name
    ensures StripAsync(Derive(m).name) == Some(m.name)
    ensures ResultTypeOf(Derive(m).returnType) == Some(m.returnTypeName)
    ensures (forall i :: 0 <= i < |m.parameters| ==> Separable(m.parameters[i])) ==>
      ParseParameterList(Derive(m).parameterList) == Some(m.parameters)
      && Split(Derive(m).argumentList, ',') == Names(m.parameters)
  {
    AsyncNameRoundTrip(m.name);
    ReturnTypeRoundTrip(m.returnTypeName);
    if forall i :: 0 <= i < |m.parameters| ==> Separable(m.parameters[i]) {
      ParameterListRoundTrip(m.parameters);
      SplitJoin(Names(m.parameters), ',');
    }
  }

  const Indent := "\n            public "
  const CallOpen := "\n            {\n                return Task.Run(() => "
  const Close := ");\n            }\n            "

  /** The wrapper template, character for character. */
  function Render(w: Wrapper): string
  {
    Indent + StaticModifier(w.isStatic) + " " + RenderSignature(w) + RenderBody(w)
  }

  function RenderSignature(w: Wrapper): string
  {
    w.returnType + " " + w.name + "(" + w.parameterList + ")"
  }

  function RenderBody(w: Wrapper): string
  {
    CallOpen + w.callee + "(" + w.argumentList + ")" + Close
  }

  function WrapperText(m: MethodSymbol): string
  {
    Render(Derive(m))
  }

  // ---- reading a rendered wrapper back ----

  function ParseModifier(s: string): Option<(bool, string)>
  {
    if |s| >= 7 && s[..7] == "static " then Some((true, s[7..]))
    else if |s| >= 1 && s[0] == ' ' then Some((false, s[1..]))
    else None
  }

  function ParseBody(s: string): Option<(string, string)>
  {
    match After(s, CallOpen)
    case None => None
    case Some(s1) =>
      match Cut(s1, '(')
      case None => None
      case Some((callee, s2)) =>
        match Cut(s2, ')')
        case None => None
        case Some((args, s3)) =>
          if s3 == Close then Some((callee, args)) else None
  }

  function ParseSignature(s: string): Option<(string, string, string, string)>
  {
    match Cut(s, ' ')
    case None => None
    case Some((ret, s1)) =>
      match Cut(s1, '(')
      case None => None
      case Some((name, s2)) =>
        match Cut(s2, ')')
        case None => None
        case Some((params, rest)) => Some((ret, name, params, rest))
  }

  /** Reads a wrapper declaration back out of its text. */
  function ParseWrapper(s: string): Option<Wrapper>
  {
    match After(s, Indent)
    case None => None
    case Some(s1) => ParseDeclaration(s1)
  }

  /** Reads the declaration that follows `public`. */
  function ParseDeclaration(s1: string): Option<Wrapper>
  {
    match ParseModifier(s1)
    case None => None
    case Some((isStatic, s2)) =>
      match ParseSignature(s2)
      case None => None
      case Some((ret, name, params, s3)) =>
        match ParseBody(s3)
        case None => None
        case Some((callee, args)) => Some(Wrapper(isStatic, ret, name, params, callee, args))
  }

  /** Wrappers whose parts do not hold the delimiters that follow them. */
  predicate Readable(w: Wrapper)
  {
    Free(w.returnType, ' ') && Free(w.name, '(') && Free(w.parameterList, ')')
    && Free(w.callee, '(') && Free(w.argumentList, ')')
  }

  lemma ParseModifierRender(isStatic: bool, rest: string)
    ensures ParseModifier(StaticModifier(isStatic) + " " + rest) == Some((isStatic, rest))
  {
    var s := StaticModifier(isStatic) + " " + rest;
    if isStatic {
      assert s[..7] == "static ";
      assert s[7..] == rest;
    } else {
      assert s[0] == ' ';
      assert s[1..] == rest;
    }
  }

  lemma ParseBodyRender(w: Wrapper)
    requires Free(w.callee, '(') && Free(w.argumentList, ')')
    ensures ParseBody(RenderBody(w)) == Some((w.callee, w.argumentList))
  {
    var tail := w.callee + "(" + w.argumentList + ")" + Close;
    assert RenderBody(w) == CallOpen + tail;
    AfterPrefix(CallOpen, tail);
    var rest := w.argumentList + ")" + Close;
    assert tail == w.callee + ['('] + rest;
    CutAt(w.callee, '(', rest);
    assert rest == w.argumentList + [')'] + Close;
    CutAt(w.argumentList, ')', Close);
  }

  lemma ParseSignatureRender(w: Wrapper, rest: string)
    requires Free(w.returnType, ' ') && Free(w.name, '(') && Free(w.parameterList, ')')
    ensures ParseSignature(RenderSignature(w) + rest)
         == Some((w.returnType, w.name, w.parameterList, rest))
  {
    var s2 := w.parameterList + [')'] + rest;
    var s1 := w.name + ['('] + s2;
    assert RenderSignature(w) + rest == w.returnType + [' '] + s1;
    CutAt(w.returnType, ' ', s1);
    CutAt(w.name, '(', s2);
    CutAt(w.parameterList, ')', rest);
  }

  lemma ParseDeclarationRender(w: Wrapper)
    requires Readable(w)
    ensures ParseDeclaration(StaticModifier(w.isStatic) + " " + (RenderSignature(w) + RenderBody(w))) == Some(w)
  {
    ParseModifierRender(w.isStatic, RenderSignature(w) + RenderBody(w));
    ParseSignatureRender(w, RenderBody(w));
    ParseBodyRender(w);
  }

  /** Rendering loses nothing: a readable wrapper's text parses back to it. */
  lemma RenderRoundTrip(w: Wrapper)
    requires Readable(w)
    ensures ParseWrapper(Render(w)) == Some(w)
  {
    var s1 := StaticModifier(w.isStatic) + " " + (RenderSignature(w) + RenderBody(w));
    AppendAssoc(Indent + StaticModifier(w.isStatic) + " ", RenderSignature(w), RenderBody(w));
    AppendAssoc(Indent, StaticModifier(w.isStatic) + " ", RenderSignature(w) + RenderBody(w));
    AppendAssoc(Indent, StaticModifier(w.isStatic), " ");
    assert Render(w) == Indent + s1;
    ParseWrapperIndent(s1);
    ParseDeclarationRender(w);
  }

  lemma ParseWrapperIndent(s1: string)
    ensures ParseWrapper(Indent + s1) == ParseDeclaration(s1)
  {
    AfterPrefix(Indent, s1);
  }

  /** A method whose wrapper text can be read back: identifiers without
      parentheses, commas or blanks, types without commas or `)`. */
  predicate WellFormed(m: MethodSymbol)
  {
    Free(m.name, '(') && Free(m.returnTypeName, ' ')
    && forall i :: 0 <= i < |m.parameters| ==>
         Separable(m.parameters[i]) && Free(m.parameters[i].name, ')')
         && Free(m.parameters[i].typeText, ')')
  }

  lemma DeriveReadable(m: MethodSymbol)
    requires WellFormed(m)
    ensures Readable(Derive(m))
  {
    var w := Derive(m);
    if m.returnTypeName != "Void" {
      var r := w.returnType;
      assert r == "Task<" + m.returnTypeName + ">";
      forall i | 0 <= i < |r| ensures r[i] != ' ' {
        if 5 <= i < |r| - 1 { assert r[i] == m.returnTypeName[i - 5]; }
      }
    }
    forall i | 0 <= i < |w.name| ensures w.name[i] != '(' {
      if i >= |m.name| { assert w.name[i] == Suffix[i - |m.name|]; }
      else { assert w.name[i] == m.name[i]; }
    }
    var texts := ParameterTexts(m.parameters);
    forall i | 0 <= i < |texts| ensures Free(texts[i], ')') {
      var p := m.parameters[i];
      assert texts[i] == p.typeText + " " + p.name;
      forall j | 0 <= j < |texts[i]| ensures texts[i][j] != ')' {
        if j < |p.typeText| { assert texts[i][j] == p.typeText[j]; }
        else if j > |p.typeText| { assert texts[i][j] == p.name[j - |p.typeText| - 1]; }
      }
    }
    JoinFree(texts, ',', ')');
    JoinFree(Names(m.parameters), ',', ')');
  }

  /** The wrapper text carries the whole signature of the original method:
      reading it back gives a wrapper that is static exactly when the
      original is, whose name is the original name plus `Async`, whose
      return type wraps the original one, whose parameters are the
      original ones in order, and whose body calls the original method
      with the parameter names, one argument per parameter, in order. */
  lemma WrapperDescribesMethod(m: MethodSymbol)
    requires WellFormed(m)
    ensures ParseWrapper(WrapperText(m)).Some?
    ensures ParseWrapper(WrapperText(m)).value.isStatic == m.isStatic
    ensures StripAsync(ParseWrapper(WrapperText(m)).value.name) == Some(m.name)
    ensures ResultTypeOf(ParseWrapper(WrapperText(m)).value.returnType) == Some(m.returnTypeName)
    ensures ParseParameterList(ParseWrapper(WrapperText(m)).value.parameterList) == Some(m.parameters)
    ensures ParseWrapper(WrapperText(m)).value.callee == m.name
    ensures Split(ParseWrapper(WrapperText(m)).value.argumentList, ',') == Names(m.parameters)
  {
    DeriveReadable(m);
    RenderRoundTrip(Derive(m));
    DeriveRecovers(m);
  }

  lemma ModifierSlot(isStatic: bool, rest: string)
    requires |rest| >= 6
    ensures |Indent + StaticModifier(isStatic) + " " + rest| >= |Indent| + 7
    ensures (Indent + StaticModifier(isStatic) + " " + rest)[|Indent|..|Indent| + 7] == "static "
        <==> isStatic
  {
    var s1 := StaticModifier(isStatic) + " " + rest;
    var t := Indent + StaticModifier(isStatic) + " " + rest;
    assert t == Indent + s1;
    assert t[|Indent|..|Indent| + 7] == s1[..7];
    if isStatic {
      assert s1[..7] == "static ";
    } else {
      assert s1[..7][0] == ' ';
    }
  }

  lemma StaticSlot(w: Wrapper)
    ensures |Render(w)| >= |Indent| + 7
    ensures Render(w)[|Indent|..|Indent| + 7] == "static " <==> w.isStatic
  {
    var rest := RenderSignature(w) + RenderBody(w);
    AppendAssoc(Indent + StaticModifier(w.isStatic) + " ", RenderSignature(w), RenderBody(w));
    ModifierSlot(w.isStatic, rest);
  }

  /** The text `static ` follows `public` exactly for static methods. */
  lemma StaticExactlyWhenStatic(m: MethodSymbol)
    ensures |WrapperText(m)| >= |Indent| + 7
    ensures WrapperText(m)[|Indent|..|Indent| + 7] == "static " <==> m.isStatic
  {
    StaticSlot(Derive(m));
  }

  // ---- the class text ----

  /** What ProcessMethod appends for a method: nothing for an async method. */
  function MethodText(m: MethodSymbol): (r: string)
    ensures r == "" <==> m.isAsync
  {
    if m.isAsync then "" else WrapperText(m)
  }

  /** The wrappers of `methods`, in list order. */
  function WrappersText(methods: seq<MethodSymbol>): string
  {
    if |methods| == 0 then ""
    else WrappersText(methods[..|methods| - 1]) + MethodText(methods[|methods| - 1])
  }

  /** The wrappers of a list are those of its parts, part by part: each
      method's wrapper keeps its place. */
  lemma {:induction false} WrappersTextAppend(a: seq<MethodSymbol>, b: seq<MethodSymbol>)
    ensures WrappersText(a + b) == WrappersText(a) + WrappersText(b)
  {
    if |b| == 0 {
      assert a + b == a;
    } else {
      assert (a + b)[..|a + b| - 1] == a + b[..|b| - 1];
      WrappersTextAppend(a, b[..|b| - 1]);
      AppendAssoc(WrappersText(a), WrappersText(b[..|b| - 1]), MethodText(b[|b| - 1]));
    }
  }

  lemma WrappersTextStep(methods: seq<MethodSymbol>, i: nat)
    requires i < |methods|
    ensures WrappersText(methods[..i + 1]) == WrappersText(methods[..i]) + MethodText(methods[i])
  {
    assert methods[..i + 1][..i] == methods[..i];
  }

  /** Methods that are all async contribute no text at all. */
  lemma {:induction false} AsyncMethodsEmitNothing(methods: seq<MethodSymbol>)
    requires forall i :: 0 <= i < |methods| ==> methods[i].isAsync
    ensures WrappersText(methods) == ""
  {
    if |methods| > 0 {
      AsyncMethodsEmitNothing(methods[..|methods| - 1]);
    }
  }

  const UsingPart := "\nusing System.Threading.Tasks;\n\nnamespace "
  const ClassLine := "{\n    public partial class "
  const OpenLine := "    {\n"

  function Header(namespaceName: string, className: string): string
  {
    UsingPart + namespaceName + "\n" + ClassLine + className + "\n" + OpenLine
  }

  /** Reads the namespace and class names back out of a class header. */
  function ParseHeader(s: string): Option<(string, string)>
  {
    match After(s, UsingPart)
    case None => None
    case Some(s1) =>
      match Cut(s1, '\n')
      case None => None
      case Some((namespaceName, s2)) =>
        match ParseClassLine(s2)
        case None => None
        case Some(className) => Some((namespaceName, className))
  }

  /** Reads the class name out of what follows the namespace line. */
  function ParseClassLine(s2: string): Option<string>
  {
    match After(s2, ClassLine)
    case None => None
    case Some(s3) =>
      match Cut(s3, '\n')
      case None => None
      case Some((className, s4)) => if s4 == OpenLine then Some(className) else None
  }

  lemma ParseClassLineRender(className: string)
    requires Free(className, '\n')
    ensures ParseClassLine(ClassLine + (className + ['\n'] + OpenLine)) == Some(className)
  {
    AfterPrefix(ClassLine, className + ['\n'] + OpenLine);
    CutAt(className, '\n', OpenLine);
  }

  /** The header loses nothing: the namespace display name and the class
      name read back from it, when neither holds a line break. */
  lemma HeaderRoundTrip(namespaceName: string, className: string)
    requires Free(namespaceName, '\n') && Free(className, '\n')
    ensures ParseHeader(Header(namespaceName, className)) == Some((namespaceName, className))
  {
    var s2 := ClassLine + (className + ['\n'] + OpenLine);
    Regroup(UsingPart, namespaceName, ['\n'], ClassLine, className, OpenLine);
    AfterPrefix(UsingPart, namespaceName + ['\n'] + s2);
    CutAt(namespaceName, '\n', s2);
    ParseClassLineRender(className);
  }

  lemma Regroup<T>(a: seq<T>, b: seq<T>, nl: seq<T>, c: seq<T>, d: seq<T>, e: seq<T>)
    ensures a + b + nl + c + d + nl + e == a + (b + nl + (c + (d + nl + e)))
  {
  }

  const Footer := "} }"

  /** A type is nested when what directly contains it is not its namespace. */
  predicate IsNested(t: TypeSymbol)
  {
    t.containingSymbol != t.containingNamespace.id
  }

  /** The generated source for a type; None (the source's null) for a nested type. */
  function ClassSource(t: TypeSymbol, methods: seq<MethodSymbol>): (r: Option<string>)
    ensures r.None? <==> IsNested(t)
    ensures r.Some? ==> |r.value| >= |Header(t.containingNamespace.displayName, t.name)| + 3
    ensures r.Some? ==> r.value[..|Header(t.containingNamespace.displayName, t.name)|]
                        == Header(t.containingNamespace.displayName, t.name)
    ensures r.Some? ==> r.value[|r.value| - 3..] == Footer
  {
    if IsNested(t) then None
    else
      var h := Header(t.containingNamespace.displayName, t.name);
      var s := h + WrappersText(methods) + Footer;
      assert s[..|h|] == h;
      Some(s)
  }

  /** A class whose methods all lack a wrapper still gets its (empty) partial class. */
  lemma EmptyClassSource(t: TypeSymbol, methods: seq<MethodSymbol>)
    requires !IsNested(t)
    requires forall i :: 0 <= i < |methods| ==> methods[i].isAsync
    ensures ClassSource(t, methods) == Some(Header(t.containingNamespace.displayName, t.name) + Footer)
  {
    AsyncMethodsEmitNothing(methods);
  }

  /** The mutable text buffer the emitted source is built in. */
  class StringBuilder {
    var content: string

    constructor (initial: string)
      ensures content == initial
    {
      content := initial;
    }

    method Append(s: string)
      modifies this
      ensures content == old(content) + s
    {
      content := content + s;
    }
  }

  /** Appends the wrapper of one method to `source`; an async method is
      skipped and the buffer left as it was. */
  method ProcessMethod(source: StringBuilder, m: MethodSymbol)
    modifies source
    ensures m.isAsync ==> source.content == old(source.content)
    ensures !m.isAsync ==> source.content == old(source.content) + WrapperText(m)
  {
    if m.isAsync {
      return;
    }
    var asyncMethodName := AsyncName(m.name);
    var asyncReturnType := AsyncReturnType(m.returnTypeName);
    var parameters := ParameterList(m.parameters);
    var arguments := ArgumentList(m.parameters);
    source.Append(Render(Wrapper(m.isStatic, asyncReturnType, asyncMethodName, parameters, m.name, arguments)));
  }

  /** Builds the partial class holding the wrappers of `methods`. */
  method ProcessClass(classSymbol: TypeSymbol, methods: seq<MethodSymbol>) returns (r: Option<string>)
    ensures r == ClassSource(classSymbol, methods)
  {
    if classSymbol.containingSymbol != classSymbol.containingNamespace.id {
      return None;
    }
    var namespaceName := classSymbol.containingNamespace.displayName;
    var header := Header(namespaceName, classSymbol.name);
    var source := new StringBuilder(header);
    var i := 0;
    while i < |methods|
      invariant 0 <= i <= |methods|
      invariant source.content == header + WrappersText(methods[..i])
    {
      ghost var before := source.content;
      ProcessMethod(source, methods[i]);
      assert source.content == before + MethodText(methods[i]);
      WrappersTextStep(methods, i);
      AppendAssoc(header, WrappersText(methods[..i]), MethodText(methods[i]));
      i := i + 1;
    }
    assert methods[..i] == methods;
    source.Append(Footer);
    r := Some(source.content);
  }
}
