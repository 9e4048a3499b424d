/** One generation pass (AsyncifyGenerator.Execute): add the marker attribute's
    source, keep the candidates that carry the marker, group them by
    containing type and emit one unit per group. */
module Generator {
  import opened Symbols
  import opened Receiver
  import opened Emission

  /** A (hint name, text) pair handed to the host. */
  datatype GeneratedSource = GeneratedSource(hintName: string, text: string)

  const MarkerNamespace := "namespace System"
  const MarkerUsage := "[AttributeUsage(AttributeTargets.Method, Inherited = false, AllowMultiple = false)]"
  const MarkerClass := "sealed class AsyncifyAttribute : Attribute"
  const MarkerBody := "\n    {\n        public AsyncifyAttribute()\n        {\n        }\n    }\n}\n"

  const NamespaceOpen := "\n{\n    "
  const MemberIndent := "\n    "

  /** The marker attribute's source text. */
  const AttributeText := "\n" + MarkerNamespace + NamespaceOpen + MarkerUsage + MemberIndent + MarkerClass + MarkerBody

  const AttributeSource := GeneratedSource("AsyncifyAttribute", AttributeText)

  // ---- filter ----

  /** A method carries the marker when one of its attribute classes is the marker symbol. */
  predicate HasMarker(m: MethodSymbol, marker: SymbolId)
  {
    exists i :: 0 <= i < |m.attributeClasses| && m.attributeClasses[i] == marker
  }

  /** The declared symbols of the candidates that carry the marker, in candidate order. */
  function Marked(candidates: seq<MethodDeclaration>, marker: SymbolId): (r: seq<MethodSymbol>)
    ensures |r| <= |candidates|
    ensures forall i :: 0 <= i < |r| ==> HasMarker(r[i], marker)
  {
    if |candidates| == 0 then []
    else
      var last := candidates[|candidates| - 1].symbol;
      Marked(candidates[..|candidates| - 1], marker) + (if HasMarker(last, marker) then [last] else [])
  }

  /** Filtering distributes over concatenation: kept methods keep their order. */
  lemma {:induction false} MarkedAppend(a: seq<MethodDeclaration>, b: seq<MethodDeclaration>, marker: SymbolId)
    ensures Marked(a + b, marker) == Marked(a, marker) + Marked(b, marker)
  {
    if |b| == 0 {
      assert a + b == a;
    } else {
      assert (a + b)[..|a + b| - 1] == a + b[..|b| - 1];
      MarkedAppend(a, b[..|b| - 1], marker);
    }
  }

  /** A method is kept exactly when it is the symbol of a candidate and carries the marker. */
  lemma {:induction false} MarkedMembership(candidates: seq<MethodDeclaration>, marker: SymbolId, m: MethodSymbol)
    ensures m in Marked(candidates, marker)
        <==> HasMarker(m, marker) && exists i :: 0 <= i < |candidates| && candidates[i].symbol == m
  {
    if |candidates| > 0 {
      var init := candidates[..|candidates| - 1];
      MarkedMembership(init, marker, m);
      if exists i :: 0 <= i < |candidates| && candidates[i].symbol == m {
        var i :| 0 <= i < |candidates| && candidates[i].symbol == m;
        if i < |init| { assert init[i] == candidates[i]; }
      }
      if exists i :: 0 <= i < |init| && init[i].symbol == m {
        var i :| 0 <= i < |init| && init[i].symbol == m;
        assert candidates[i] == init[i];
      }
    }
  }

  /** The loop of Execute that keeps the annotated candidates. */
  method KeepAnnotated(candidates: seq<MethodDeclaration>, attributeSymbol: SymbolId)
    returns (methodSymbols: seq<MethodSymbol>)
    ensures methodSymbols == Marked(candidates, attributeSymbol)
  {
    methodSymbols := [];
    var i := 0;
    while i < |candidates|
      invariant 0 <= i <= |candidates|
      invariant methodSymbols == Marked(candidates[..i], attributeSymbol)
    {
      assert candidates[..i + 1][..i] == candidates[..i];
      var methodSymbol := candidates[i].symbol;
      if exists j :: 0 <= j < |methodSymbol.attributeClasses| && methodSymbol.attributeClasses[j] == attributeSymbol {
        methodSymbols := methodSymbols + [methodSymbol];
      }
      i := i + 1;
    }
    assert candidates[..i] == candidates;
  }

  // ---- group by containing type ----

  /** The distinct containing types, in order of first appearance (as GroupBy yields its groups). */
  function GroupKeys(ms: seq<MethodSymbol>): (keys: seq<TypeSymbol>)
    ensures forall i, j :: 0 <= i < j < |keys| ==> keys[i] != keys[j]
    ensures forall t :: t in keys <==> exists i :: 0 <= i < |ms| && ms[i].containingType == t
  {
    if |ms| == 0 then []
    else
      var init := ms[..|ms| - 1];
      var keys := GroupKeys(init);
      var t := ms[|ms| - 1].containingType;
      assert forall i :: 0 <= i < |init| ==> init[i] == ms[i];
      if t in keys then keys else keys + [t]
  }

  /** The methods of the group for type `t`, in their original order. */
  function GroupOf(ms: seq<MethodSymbol>, t: TypeSymbol): (g: seq<MethodSymbol>)
    ensures forall m :: m in g ==> m in ms && m.containingType == t
  {
    if |ms| == 0 then []
    else
      var last := ms[|ms| - 1];
      GroupOf(ms[..|ms| - 1], t) + (if last.containingType == t then [last] else [])
  }

  /** Every method lands in the group of its own containing type. */
  lemma {:induction false} InOwnGroup(ms: seq<MethodSymbol>, i: nat)
    requires i < |ms|
    ensures ms[i] in GroupOf(ms, ms[i].containingType)
  {
    if i < |ms| - 1 {
      InOwnGroup(ms[..|ms| - 1], i);
    }
  }

  /** A group keeps the relative order of its methods. */
  lemma {:induction false} GroupOfAppend(a: seq<MethodSymbol>, b: seq<MethodSymbol>, t: TypeSymbol)
    ensures GroupOf(a + b, t) == GroupOf(a, t) + GroupOf(b, t)
  {
    if |b| == 0 {
      assert a + b == a;
    } else {
      assert (a + b)[..|a + b| - 1] == a + b[..|b| - 1];
      GroupOfAppend(a, b[..|b| - 1], t);
    }
  }

  lemma {:induction false} GroupOfAbsent(ms: seq<MethodSymbol>, t: TypeSymbol)
    requires t !in GroupKeys(ms)
    ensures GroupOf(ms, t) == []
  {
    if |ms| > 0 {
      assert ms[..|ms| - 1] + [ms[|ms| - 1]] == ms;
      GroupOfAbsent(ms[..|ms| - 1], t);
    }
  }

  /** Each kept method lands in exactly one group: the one whose key is its type. */
  lemma ExactlyOneGroup(ms: seq<MethodSymbol>, i: nat)
    requires i < |ms|
    ensures ms[i].containingType in GroupKeys(ms)
    ensures ms[i] in GroupOf(ms, ms[i].containingType)
    ensures forall t :: t != ms[i].containingType ==> ms[i] !in GroupOf(ms, t)
  {
    InOwnGroup(ms, i);
  }

  /** The total size of the groups for `keys`. */
  function GroupSizes(ms: seq<MethodSymbol>, keys: seq<TypeSymbol>): nat
  {
    if |keys| == 0 then 0 else |GroupOf(ms, keys[0])| + GroupSizes(ms, keys[1..])
  }

  lemma {:induction false} GroupSizesStep(ms: seq<MethodSymbol>, m: MethodSymbol, keys: seq<TypeSymbol>)
    requires forall i, j :: 0 <= i < j < |keys| ==> keys[i] != keys[j]
    ensures GroupSizes(ms + [m], keys) == GroupSizes(ms, keys) + (if m.containingType in keys then 1 else 0)
  {
    if |keys| > 0 {
      GroupSizesStep(ms, m, keys[1..]);
      assert (ms + [m])[..|ms + [m]| - 1] == ms;
      assert keys == [keys[0]] + keys[1..];
      if keys[0] == m.containingType {
        assert m.containingType !in keys[1..];
      }
    }
  }

  lemma {:induction false} GroupSizesLastKey(ms: seq<MethodSymbol>, keys: seq<TypeSymbol>, t: TypeSymbol)
    ensures GroupSizes(ms, keys + [t]) == GroupSizes(ms, keys) + |GroupOf(ms, t)|
  {
    if |keys| > 0 {
      assert (keys + [t])[1..] == keys[1..] + [t];
      GroupSizesLastKey(ms, keys[1..], t);
    }
  }

  /** Grouping is a partition: the groups together hold every kept method once. */
  lemma {:induction false} GroupsPartition(ms: seq<MethodSymbol>)
    ensures GroupSizes(ms, GroupKeys(ms)) == |ms|
  {
    if |ms| > 0 {
      var init := ms[..|ms| - 1];
      var m := ms[|ms| - 1];
      assert ms == init + [m];
      GroupsPartition(init);
      var keys := GroupKeys(init);
      GroupSizesStep(init, m, keys);
      if m.containingType !in keys {
        GroupSizesLastKey(ms, keys, m.containingType);
        GroupOfAbsent(init, m.containingType);
      }
    }
  }

  // ---- units ----

  /** `Program` gives `Program_asyncify.cs`. */
  function UnitName(t: TypeSymbol): (r: string)
    ensures |r| == |t.name| + 12
    ensures r[..|t.name|] == t.name
  {
    t.name + UnitSuffix
  }

  const UnitSuffix := "_asyncify.cs"

  /** Inverse of UnitName: the type name behind a unit name. */
  function UnitTypeName(hintName: string): Option<string>
  {
    if |hintName| >= |UnitSuffix| && hintName[|hintName| - |UnitSuffix|..] == UnitSuffix
    then Some(hintName[..|hintName| - |UnitSuffix|])
    else None
  }

  /** The unit name ends in `_asyncify.cs`, and taking it off gives the
      type's simple name back. */
  lemma UnitNameRoundTrip(t: TypeSymbol)
    ensures UnitTypeName(UnitName(t)) == Some(t.name)
  {
    var r := UnitName(t);
    assert r[|r| - |UnitSuffix|..] == UnitSuffix;
  }

  /** Two types get the same unit name exactly when their simple names agree,
      whatever their namespaces. */
  lemma UnitNameCollides(a: TypeSymbol, b: TypeSymbol)
    ensures UnitName(a) == UnitName(b) <==> a.name == b.name
  {
    if UnitName(a) == UnitName(b) {
      assert a.name == UnitName(a)[..|a.name|];
    }
  }

  /** The unit a top-level type's group is handed over as. */
  function UnitOf(ms: seq<MethodSymbol>, t: TypeSymbol): GeneratedSource
    requires !IsNested(t)
  {
    GeneratedSource(UnitName(t), ClassSource(t, GroupOf(ms, t)).value)
  }

  /** The units for the top-level types `keys`, in order. */
  function UnitsFor(ms: seq<MethodSymbol>, keys: seq<TypeSymbol>): (r: seq<GeneratedSource>)
    requires forall i :: 0 <= i < |keys| ==> !IsNested(keys[i])
  {
    seq(|keys|, i requires 0 <= i < |keys| => UnitOf(ms, keys[i]))
  }

  /** The groups the pass gets through: those before the first nested type.
      There ProcessClass returns null, `SourceText.From` throws and no later
      group is reached. */
  function ReachedKeys(keys: seq<TypeSymbol>): (r: seq<TypeSymbol>)
    ensures r <= keys
    ensures forall i :: 0 <= i < |r| ==> !IsNested(r[i])
    ensures |r| < |keys| ==> IsNested(keys[|r|])
  {
    if |keys| == 0 || IsNested(keys[0]) then []
    else
      var rest := ReachedKeys(keys[1..]);
      assert keys == [keys[0]] + keys[1..];
      [keys[0]] + rest
  }

  /** The units a pass hands over for the kept methods `ms`, in group order. */
  function Units(ms: seq<MethodSymbol>): seq<GeneratedSource>
  {
    UnitsFor(ms, ReachedKeys(GroupKeys(ms)))
  }

  /** The pass throws before handing over every group. */
  predicate Aborts(ms: seq<MethodSymbol>)
  {
    |ReachedKeys(GroupKeys(ms))| < |GroupKeys(ms)|
  }

  /** The pass hands over the i-th group's unit exactly when it reaches a
      top-level type there; at a nested type it has handed over all it will. */
  lemma UnitAt(ms: seq<MethodSymbol>, i: nat)
    requires i < |GroupKeys(ms)| && i <= |Units(ms)|
    ensures !IsNested(GroupKeys(ms)[i]) ==>
      i < |Units(ms)| && Units(ms)[i] == UnitOf(ms, GroupKeys(ms)[i])
    ensures IsNested(GroupKeys(ms)[i]) ==> i == |Units(ms)| && Aborts(ms)
  {
    var reached := ReachedKeys(GroupKeys(ms));
    if i < |reached| {
      assert reached[i] == GroupKeys(ms)[i];
    }
  }

  /** The pass throws exactly when some kept method lives in a nested type. */
  lemma AbortsIffNested(ms: seq<MethodSymbol>)
    ensures Aborts(ms) <==> exists i :: 0 <= i < |ms| && IsNested(ms[i].containingType)
  {
    var keys := GroupKeys(ms);
    var reached := ReachedKeys(keys);
    if Aborts(ms) {
      assert keys[|reached|] in keys;
    }
    if exists i :: 0 <= i < |ms| && IsNested(ms[i].containingType) {
      var i :| 0 <= i < |ms| && IsNested(ms[i].containingType);
      assert ms[i].containingType in keys;
      var j :| 0 <= j < |keys| && keys[j] == ms[i].containingType;
      if j < |reached| {
        assert reached[j] == keys[j];
      }
    }
  }

  /** When every kept method lives in a top-level type, the pass does not
      throw and hands over one unit per group: the i-th carries the i-th
      key's name and its (non-empty) group's class text. With GroupKeys,
      that is exactly one unit per type holding a kept method. */
  lemma UnitsPerType(ms: seq<MethodSymbol>)
    requires forall i :: 0 <= i < |ms| ==> !IsNested(ms[i].containingType)
    ensures !Aborts(ms)
    ensures |Units(ms)| == |GroupKeys(ms)|
    ensures forall i :: 0 <= i < |Units(ms)| ==>
      !IsNested(GroupKeys(ms)[i]) && Units(ms)[i] == UnitOf(ms, GroupKeys(ms)[i])
      && GroupOf(ms, GroupKeys(ms)[i]) != []
  {
    var keys := GroupKeys(ms);
    AbortsIffNested(ms);
    assert ReachedKeys(keys) == keys;
    forall i | 0 <= i < |keys| ensures GroupOf(ms, keys[i]) != [] {
      assert keys[i] in keys;
      var k :| 0 <= k < |ms| && ms[k].containingType == keys[i];
      InOwnGroup(ms, k);
    }
  }

  lemma {:induction false} GroupOfAll(ms: seq<MethodSymbol>, t: TypeSymbol)
    requires forall i :: 0 <= i < |ms| ==> ms[i].containingType == t
    ensures GroupOf(ms, t) == ms
  {
    if |ms| > 0 {
      var init, last := ms[..|ms| - 1], ms[|ms| - 1];
      GroupOfAll(init, t);
      assert GroupOf(ms, t) == GroupOf(init, t) + [last];
      assert init + [last] == ms;
    }
  }

  lemma {:induction false} GroupKeysOneType(ms: seq<MethodSymbol>, t: TypeSymbol)
    requires |ms| > 0
    requires forall i :: 0 <= i < |ms| ==> ms[i].containingType == t
    ensures GroupKeys(ms) == [t]
  {
    if |ms| > 1 {
      GroupKeysOneType(ms[..|ms| - 1], t);
    } else {
      assert ms[..0] == [];
    }
  }

  /** Marked methods that all live in one top-level type give exactly one
      unit, whose class holds their wrappers in their original order; in a
      nested type they give none, and the pass throws. */
  lemma OneTypeOneUnit(ms: seq<MethodSymbol>, t: TypeSymbol)
    requires |ms| > 0
    requires forall i :: 0 <= i < |ms| ==> ms[i].containingType == t
    ensures !IsNested(t) ==> Units(ms) == [GeneratedSource(UnitName(t), ClassSource(t, ms).value)] && !Aborts(ms)
    ensures IsNested(t) ==> Units(ms) == [] && Aborts(ms)
  {
    GroupKeysOneType(ms, t);
    GroupOfAll(ms, t);
  }

  // ---- the intended behaviour: skip nested types ----

  /** The top-level types among `keys`, in order. */
  function TopLevelKeys(keys: seq<TypeSymbol>): (r: seq<TypeSymbol>)
    ensures |r| <= |keys|
    ensures forall i :: 0 <= i < |r| ==> !IsNested(r[i])
  {
    if |keys| == 0 then []
    else (if IsNested(keys[0]) then [] else [keys[0]]) + TopLevelKeys(keys[1..])
  }

  lemma {:induction false} TopLevelKeysMembership(keys: seq<TypeSymbol>, t: TypeSymbol)
    ensures t in TopLevelKeys(keys) <==> t in keys && !IsNested(t)
  {
    if |keys| > 0 {
      TopLevelKeysMembership(keys[1..], t);
      assert keys == [keys[0]] + keys[1..];
    }
  }

  lemma {:induction false} TopLevelKeysDistinct(keys: seq<TypeSymbol>)
    requires forall i, j :: 0 <= i < j < |keys| ==> keys[i] != keys[j]
    ensures forall i, j :: 0 <= i < j < |TopLevelKeys(keys)| ==> TopLevelKeys(keys)[i] != TopLevelKeys(keys)[j]
  {
    if |keys| > 0 {
      TopLevelKeysDistinct(keys[1..]);
      assert keys[0] !in keys[1..];
      TopLevelKeysMembership(keys[1..], keys[0]);
    }
  }

  /** The units handed over when a nested type is skipped, as the TODO in ProcessClass
      (AsyncifyGenerator.cs:66) intends, instead of stopping the pass. */
  function IntendedUnits(ms: seq<MethodSymbol>): seq<GeneratedSource>
  {
    UnitsFor(ms, TopLevelKeys(GroupKeys(ms)))
  }

  /** Skipping nested types, the units are one per top-level type holding a
      kept method, and each such type gets exactly one, carrying its name and
      its group's class text. */
  lemma IntendedUnitsPerType(ms: seq<MethodSymbol>)
    ensures |IntendedUnits(ms)| == |TopLevelKeys(GroupKeys(ms))|
    ensures forall t :: t in TopLevelKeys(GroupKeys(ms)) <==> !IsNested(t) && exists i :: 0 <= i < |ms| && ms[i].containingType == t
    ensures forall i, j :: 0 <= i < j < |TopLevelKeys(GroupKeys(ms))| ==>
        TopLevelKeys(GroupKeys(ms))[i] != TopLevelKeys(GroupKeys(ms))[j]
    ensures forall i :: 0 <= i < |IntendedUnits(ms)| ==>
        IntendedUnits(ms)[i] == UnitOf(ms, TopLevelKeys(GroupKeys(ms))[i])
  {
    TopLevelKeysDistinct(GroupKeys(ms));
    forall t ensures t in TopLevelKeys(GroupKeys(ms))
      <==> !IsNested(t) && exists i :: 0 <= i < |ms| && ms[i].containingType == t
    {
      TopLevelKeysMembership(GroupKeys(ms), t);
    }
  }

  lemma {:induction false} ReachedPrefixOfTopLevel(keys: seq<TypeSymbol>)
    ensures ReachedKeys(keys) <= TopLevelKeys(keys)
    ensures |ReachedKeys(keys)| == |keys| ==> ReachedKeys(keys) == TopLevelKeys(keys)
  {
    if |keys| > 0 && !IsNested(keys[0]) {
      ReachedPrefixOfTopLevel(keys[1..]);
    }
  }

  /** The pass as written hands over a prefix of the intended units, and all
      of them when it does not throw. */
  lemma UnitsPrefixOfIntended(ms: seq<MethodSymbol>)
    ensures Units(ms) <= IntendedUnits(ms)
    ensures !Aborts(ms) ==> Units(ms) == IntendedUnits(ms)
  {
    var keys := GroupKeys(ms);
    ReachedPrefixOfTopLevel(keys);
    var a := ReachedKeys(keys);
    var b := TopLevelKeys(keys);
    assert forall i :: 0 <= i < |a| ==> a[i] == b[i];
  }

  /** A nested type's group that comes first stops the pass before a later
      top-level type is handed over, although that type is intended to get
      its unit. */
  lemma NestedGroupStopsPass(inner: MethodSymbol, top: MethodSymbol)
    requires IsNested(inner.containingType) && !IsNested(top.containingType)
    ensures Units([inner, top]) == [] && Aborts([inner, top])
    ensures UnitOf([inner, top], top.containingType) in IntendedUnits([inner, top])
  {
    var ms := [inner, top];
    assert ms[..1] == [inner];
    GroupKeysOneType([inner], inner.containingType);
    assert GroupKeys(ms)[0] == inner.containingType;
    IntendedUnitsPerType(ms);
    var tk := TopLevelKeys(GroupKeys(ms));
    assert ms[1].containingType == top.containingType;
    TopLevelKeysMembership(GroupKeys(ms), top.containingType);
    assert top.containingType in tk;
    var j :| 0 <= j < |tk| && tk[j] == top.containingType;
    assert IntendedUnits(ms)[j] == UnitOf(ms, top.containingType);
  }

  /** What one pass hands to the host, and whether it ends by throwing. */
  datatype PassResult = PassResult(sources: seq<GeneratedSource>, aborted: bool)

  /** Everything one pass hands to the host; no receiver means only the attribute source. */
  function PassOutput(candidates: Option<seq<MethodDeclaration>>, marker: SymbolId): (r: PassResult)
    ensures |r.sources| >= 1 && r.sources[0] == AttributeSource
    ensures candidates.None? ==> r == PassResult([AttributeSource], false)
  {
    match candidates
    case None => PassResult([AttributeSource], false)
    case Some(cs) =>
      var ms := Marked(cs, marker);
      PassResult([AttributeSource] + Units(ms), Aborts(ms))
  }

  /** The host side of AddSource: the generated sources, in the order they were added. */
  class GeneratorContext {
    var sources: seq<GeneratedSource>

    constructor ()
      ensures sources == []
    {
      sources := [];
    }

    method AddSource(hintName: string, text: string)
      modifies this
      ensures sources == old(sources) + [GeneratedSource(hintName, text)]
    {
      sources := sources + [GeneratedSource(hintName, text)];
    }
  }

  /** One generation pass. `receiver` is null when the host's receiver is not
      a SyntaxReceiver; `attributeSymbol` is the bound marker attribute.
      `aborted` is true when the pass ends with the ArgumentNullException
      that `SourceText.From` throws for a nested type's null class text. */
  method Execute(context: GeneratorContext, receiver: SyntaxReceiver?, attributeSymbol: SymbolId)
    returns (aborted: bool)
    modifies context
    ensures context.sources == old(context.sources)
      + PassOutput(if receiver == null then None else Some(receiver.candidateMethods), attributeSymbol).sources
    ensures aborted
      == PassOutput(if receiver == null then None else Some(receiver.candidateMethods), attributeSymbol).aborted
  {
    aborted := false;
    context.AddSource("AsyncifyAttribute", AttributeText);
    if receiver == null {
      return;
    }
    var methodSymbols := KeepAnnotated(receiver.candidateMethods, attributeSymbol);
    var groups := GroupKeys(methodSymbols);
    ghost var units := Units(methodSymbols);
    ghost var start := context.sources;
    AppendAssoc(old(context.sources), [AttributeSource], units);
    var i := 0;
    while i < |groups|
      invariant 0 <= i <= |units|
      invariant context.sources == start + units[..i]
    {
      var classSource := ProcessClass(groups[i], GroupOf(methodSymbols, groups[i]));
      UnitAt(methodSymbols, i);
      if classSource.None? {
        // SourceText.From(null) throws: nothing more is handed over
        assert units[..i] == units;
        aborted := true;
        return;
      }
      context.AddSource(UnitName(groups[i]), classSource.value);
      TakeOneMore(units, i);
      AppendAssoc(start, units[..i], [units[i]]);
      i := i + 1;
    }
    assert units[..i] == units;
  }

  /** The demo program's one marked method, `static void PrintNumber(int number)`
      in class `Program` of namespace `TestApp`, yields one unit, named
      `Program_asyncify.cs`, whose class holds one static wrapper
      `PrintNumberAsync(int number)` returning `Task` that runs `PrintNumber(number)`. */
  lemma TestAppPass(marker: SymbolId)
    ensures PassOutput(Some([MethodDeclaration(1, MethodSymbol("PrintNumber", false, true, "Void",
              [Parameter("int", "number")], [marker],
              TypeSymbol(1, "Program", 2, NamespaceSymbol(2, "TestApp"))))]), marker)
         == PassResult([AttributeSource, GeneratedSource("Program_asyncify.cs",
              Header("TestApp", "Program")
              + Render(Wrapper(true, "Task", "PrintNumberAsync", "int number", "PrintNumber", "number"))
              + Footer)], false)
  {
    var program := TypeSymbol(1, "Program", 2, NamespaceSymbol(2, "TestApp"));
    var m := MethodSymbol("PrintNumber", false, true, "Void", [Parameter("int", "number")], [marker], program);
    var d := MethodDeclaration(1, m);
    TestAppMarked(d, marker);
    OneTypeOneUnit([m], program);
    TestAppClass(m);
    var unit := GeneratedSource(UnitName(program), ClassSource(program, [m]).value);
    assert Units(Marked([d], marker)) == [unit];
    assert PassOutput(Some([d]), marker) == PassResult([AttributeSource] + [unit], false);
    TestAppUnitName(program);
  }

  lemma TestAppWrapper(m: MethodSymbol)
    requires m.name == "PrintNumber" && m.isStatic && m.returnTypeName == "Void"
    requires m.parameters == [Parameter("int", "number")]
    ensures Derive(m) == Wrapper(true, "Task", "PrintNumberAsync", "int number", "PrintNumber", "number")
  {
    assert Derivation.ParameterText(m.parameters[0]) == "int number";
    assert Derivation.ParameterTexts(m.parameters) == ["int number"];
    assert Derivation.Names(m.parameters) == ["number"];
  }

  lemma TestAppMarked(d: MethodDeclaration, marker: SymbolId)
    requires d.symbol.attributeClasses == [marker]
    ensures Marked([d], marker) == [d.symbol]
  {
    assert HasMarker(d.symbol, marker) by { assert d.symbol.attributeClasses[0] == marker; }
    assert [d][..0] == [];
  }

  lemma TestAppClass(m: MethodSymbol)
    requires m.name == "PrintNumber" && !m.isAsync && m.isStatic && m.returnTypeName == "Void"
    requires m.parameters == [Parameter("int", "number")]
    requires m.containingType == TypeSymbol(1, "Program", 2, NamespaceSymbol(2, "TestApp"))
    ensures ClassSource(m.containingType, [m]) == Some(
              Header("TestApp", "Program")
              + Render(Wrapper(true, "Task", "PrintNumberAsync", "int number", "PrintNumber", "number"))
              + Footer)
  {
    TestAppWrapper(m);
    assert [m][..0] == [];
    assert WrappersText([m]) == MethodText(m);
  }

  lemma TestAppUnitName(t: TypeSymbol)
    requires t.name == "Program"
    ensures UnitName(t) == "Program_asyncify.cs"
  {
  }
}
