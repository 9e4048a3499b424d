/** The pure derivations a wrapper is built from (AsyncifyGenerator.ProcessMethod):
    its name, its return type, its parameter text and its argument text. */
module Derivation {
  import opened Symbols
  import opened Text

  const Suffix := "Async"

  /** `SayHello` becomes `SayHelloAsync`. */
  function AsyncName(name: string): (r: string)
    ensures |r| == |name| + 5
    ensures r != name
    ensures r[..|name|] == name
  {
    name + Suffix
  }

  /** Inverse of AsyncName: the original name, when `s` ends in the suffix. */
  function StripAsync(s: string): Option<string>
  {
    if |s| >= |Suffix| && s[|s| - |Suffix|..] == Suffix then Some(s[..|s| - |Suffix|]) else None
  }

  lemma AsyncNameRoundTrip(name: string)
    ensures StripAsync(AsyncName(name)) == Some(name)
  {
    var r := AsyncName(name);
    assert r[|r| - |Suffix|..] == Suffix;
  }

  /** Two different methods never get the same wrapper name. */
  lemma AsyncNameInjective(a: string, b: string)
    requires AsyncName(a) == AsyncName(b)
    ensures a == b
  {
    AsyncNameRoundTrip(a);
    AsyncNameRoundTrip(b);
  }

  /** `Void` becomes `Task`; any other return type `T` becomes `Task<T>`. */
  function AsyncReturnType(returnTypeName: string): (r: string)
    ensures r == "Task" <==> returnTypeName == "Void"
    ensures |r| >= 4 && r[..4] == "Task"
  {
    if returnTypeName == "Void" then "Task" else "Task<" + returnTypeName + ">"
  }

  /** Inverse of AsyncReturnType: the original return type behind a task type. */
  function ResultTypeOf(taskType: string): Option<string>
  {
    if taskType == "Task" then Some("Void")
    else if |taskType| >= 6 && taskType[..5] == "Task<" && taskType[|taskType| - 1] == '>'
    then Some(taskType[5..|taskType| - 1])
    else None
  }

  /** The return-type mapping loses nothing: the original type can be read back. */
  lemma ReturnTypeRoundTrip(returnTypeName: string)
    ensures ResultTypeOf(AsyncReturnType(returnTypeName)) == Some(returnTypeName)
  {
    if returnTypeName != "Void" {
      var r := AsyncReturnType(returnTypeName);
      assert r[..5] == "Task<";
      assert r[5..|r| - 1] == returnTypeName;
    }
  }

  lemma ReturnTypeInjective(a: string, b: string)
    requires AsyncReturnType(a) == AsyncReturnType(b)
    ensures a == b
  {
    ReturnTypeRoundTrip(a);
    ReturnTypeRoundTrip(b);
  }

  /** One entry of the parameter text: `int number`. */
  function ParameterText(p: Parameter): string
  {
    p.typeText + " " + p.name
  }

  function ParameterTexts(ps: seq<Parameter>): seq<string>
  {
    seq(|ps|, i requires 0 <= i < |ps| => ParameterText(ps[i]))
  }

  function Names(ps: seq<Parameter>): seq<string>
  {
    seq(|ps|, i requires 0 <= i < |ps| => ps[i].name)
  }

  /** `int number,string name`: empty exactly when there are no parameters,
      since every entry holds at least the blank between type and name. */
  function ParameterList(ps: seq<Parameter>): (r: string)
    ensures r == "" <==> |ps| == 0
  {
    var texts := ParameterTexts(ps);
    forall i | 0 <= i < |texts| ensures texts[i] != "" {
      assert texts[i][|ps[i].typeText|] == ' ';
    }
    JoinEmpty(texts, ',');
    Join(texts, ',')
  }

  /** `number,name`: empty when there are no parameters, and only then when
      every parameter has a name. */
  function ArgumentList(ps: seq<Parameter>): (r: string)
    ensures |ps| == 0 ==> r == ""
    ensures (forall i :: 0 <= i < |ps| ==> ps[i].name != "") ==> (r == "" <==> |ps| == 0)
  {
    NamesJoinEmpty(ps);
    Join(Names(ps), ',')
  }

  lemma NamesJoinEmpty(ps: seq<Parameter>)
    ensures (forall i :: 0 <= i < |ps| ==> ps[i].name != "") ==> (Join(Names(ps), ',') == "" <==> |ps| == 0)
  {
    if forall i :: 0 <= i < |ps| ==> ps[i].name != "" {
      JoinEmpty(Names(ps), ',');
    }
  }

  /** A parameter whose parts can be read back out of the joined texts: a
      non-empty name without comma or blank, a type without comma. */
  predicate Separable(p: Parameter)
  {
    p.name != "" && Free(p.name, ',') && Free(p.name, ' ') && Free(p.typeText, ',')
  }

  /** The argument text has one entry per parameter, and the i-th entry is
      the i-th parameter's name. */
  lemma ArgumentListEntries(ps: seq<Parameter>)
    requires forall i :: 0 <= i < |ps| ==> ps[i].name != "" && Free(ps[i].name, ',')
    ensures |Split(ArgumentList(ps), ',')| == |ps|
    ensures forall i :: 0 <= i < |ps| ==> Split(ArgumentList(ps), ',')[i] == ps[i].name
  {
    SplitJoin(Names(ps), ',');
  }

  /** The index of the last occurrence of `c` in `s`, if any. */
  function LastIndexOf(s: string, c: char): (r: Option<nat>)
    ensures r.Some? ==> r.value < |s| && s[r.value] == c && Free(s[r.value + 1..], c)
    ensures r.None? ==> Free(s, c)
  {
    if |s| == 0 then None
    else if s[|s| - 1] == c then Some(|s| - 1)
    else
      var r := LastIndexOf(s[..|s| - 1], c);
      assert forall i :: 0 <= i < |s| - 1 ==> s[..|s| - 1][i] == s[i];
      r
  }

  /** Reads `type name` back, splitting at the last blank. */
  function ParseParameter(text: string): Option<Parameter>
  {
    match LastIndexOf(text, ' ')
    case None => None
    case Some(k) => Some(Parameter(text[..k], text[k + 1..]))
  }

  lemma ParseParameterText(p: Parameter)
    requires Free(p.name, ' ')
    ensures ParseParameter(ParameterText(p)) == Some(p)
  {
    var t := ParameterText(p);
    var k := |p.typeText|;
    assert t[k] == ' ';
    assert t[k + 1..] == p.name;
    var r := LastIndexOf(t, ' ');
    assert r.Some?;
    assert t[..k] == p.typeText;
  }

  /** Reads a parameter text back into parameters; None if an entry has no blank. */
  function ParseParameterList(s: string): Option<seq<Parameter>>
  {
    ParseAll(Split(s, ','))
  }

  function ParseAll(entries: seq<string>): Option<seq<Parameter>>
  {
    if |entries| == 0 then Some([])
    else match (ParseParameter(entries[0]), ParseAll(entries[1..]))
      case (Some(p), Some(rest)) => Some([p] + rest)
      case _ => None
  }

  lemma {:induction false} ParseAllTexts(ps: seq<Parameter>)
    requires forall i :: 0 <= i < |ps| ==> Free(ps[i].name, ' ')
    ensures ParseAll(ParameterTexts(ps)) == Some(ps)
  {
    if |ps| > 0 {
      ParseParameterText(ps[0]);
      assert ParameterTexts(ps)[1..] == ParameterTexts(ps[1..]);
      ParseAllTexts(ps[1..]);
      assert [ps[0]] + ps[1..] == ps;
    }
  }

  lemma ParameterTextFree(p: Parameter)
    requires Separable(p)
    ensures ParameterText(p) != "" && Free(ParameterText(p), ',')
  {
    var t := ParameterText(p);
    assert t[|p.typeText|] == ' ';
    forall i | 0 <= i < |t| ensures t[i] != ',' {
      if i < |p.typeText| { assert t[i] == p.typeText[i]; }
      else if i > |p.typeText| { assert t[i] == p.name[i - |p.typeText| - 1]; }
    }
  }

  /** The parameter text is order- and type-preserving: it reads back as the
      very parameters it was made from. */
  lemma ParameterListRoundTrip(ps: seq<Parameter>)
    requires forall i :: 0 <= i < |ps| ==> Separable(ps[i])
    ensures ParseParameterList(ParameterList(ps)) == Some(ps)
  {
    var texts := ParameterTexts(ps);
    forall i | 0 <= i < |texts| ensures texts[i] != "" && Free(texts[i], ',') {
      ParameterTextFree(ps[i]);
    }
    SplitJoin(texts, ',');
    ParseAllTexts(ps);
  }

  /** The modifier slot of the wrapper: `static` exactly for static methods. */
  function StaticModifier(isStatic: bool): string
  {
    if isStatic then "static" else ""
  }
}
