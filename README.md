# Asyncify source generator, modelled in Dafny

The Asyncify generator is a C# source generator. It finds methods marked
`[Asyncify]` and emits, for each containing class, a partial class. That class
holds one wrapper per marked method: `XAsync` runs `X` through `Task.Run` and
returns the task. One generation pass has three parts, and each is modelled here:

- **Candidate collection** (`SyntaxReceiver.OnVisitSyntaxNode`). The receiver
  appends every method declaration that has at least one attribute list to its
  candidate list. It is a class with a `seq` field (`receiver.dfy`).
- **Filter and group** (`Execute`). The pass adds the attribute's own source.
  It keeps the candidates whose attribute classes include the marker symbol,
  in candidate order. It groups them by containing type, with keys in order of
  first appearance, as LINQ `GroupBy` does. It then hands one
  `(Name_asyncify.cs, text)` pair per group to the host (`generator.dfy`).
  For a nested type `ProcessClass` returns null, and `SourceText.From(null)`
  on line 58 throws `ArgumentNullException`. So the pass stops at the first
  nested group, and the groups after it are never handed over. `Execute`
  returns `aborted` for that ending.
- **Text emission** (`ProcessClass`, `ProcessMethod`). A `StringBuilder`
  class is appended to in place. It receives a fixed header, one wrapper per
  non-async method in list order, and the footer `} }`. A nested type gives
  no text: the source returns null, modelled as `None` (`emission.dfy`). The
  name, return-type, parameter and argument derivations are pure functions
  (`derivation.dfy`). They are built on a comma join and its inverse split
  (`text.dfy`).

The compiler's inputs are plain records (`symbols.dfy`). A method symbol holds
its name, `IsAsync`, `IsStatic`, return-type name, parameters as
(type text, name) pairs, attribute-class identities and its containing type.
A type symbol holds its name, the identity of its containing symbol and its
namespace. Two type symbols are the same symbol exactly when their records
are equal; `id` keeps apart types that agree on everything else. A containing
symbol and a namespace are compared by their identities.

Each derivation is paired with an inverse, and the round trips are proved:

- `StripAsync` undoes `AsyncName`.
- `ResultTypeOf` undoes `AsyncReturnType`.
- `Split` undoes `Join`.
- `ParseParameterList` undoes `ParameterList`.
- `ParseWrapper` undoes the wrapper template.

So the emitted wrapper text is shown to carry exactly the original method's
static flag, name, return type, parameters and call arguments.

The code is modelled as written where it departs from what its own TODO
comments ask for (AsyncifyGenerator.cs:66 asks for a diagnostic for a nested
type, :95 possibly one for an async method):

- No diagnostic is issued anywhere. A nested type yields null, which stops
  the pass (see "## Findings"), and an async method is just skipped.
- A derived name equal to the original is not checked for. It cannot happen,
  because the suffix is fixed and non-empty (`AsyncName` ensures `r != name`).
- Async methods are dropped at emission, not at filtering. So a class whose
  marked methods are all async still gets a unit holding an empty partial
  class (`EmptyClassSource`).
- The unit name depends on the type's simple name only (`UnitNameCollides`).
  Two marked classes with the same name in different namespaces are given
  the same hint name.

## Model

| member | source | states |
|---|---|---|
| `Receiver.SyntaxReceiver.constructor` | FunWithSourceGenerators/AsyncifyGenerator.cs:128-133 | a fresh receiver holds no candidates |
| `Receiver.SyntaxReceiver.OnVisitSyntaxNode` | FunWithSourceGenerators/AsyncifyGenerator.cs:138-146 | a method declaration with at least one attribute list is appended at the end; any other node leaves the list unchanged, and earlier entries never change |
| `Receiver.Walk` | FunWithSourceGenerators/AsyncifyGenerator.cs:135-146 | after the host visits a sequence of nodes, the list is its old value followed by the candidates of that sequence, in visit order |
| `Receiver.Candidates` | FunWithSourceGenerators/AsyncifyGenerator.cs:140-145 | the candidates are no more than the visited nodes and each has an attribute list |
| `Receiver.CandidatesAppend` | FunWithSourceGenerators/AsyncifyGenerator.cs:138-146 | collecting over two stretches of a walk gives the first stretch's candidates followed by the second's (visit order kept) |
| `Receiver.CandidatesMembership` | FunWithSourceGenerators/AsyncifyGenerator.cs:141-144 | a declaration is collected if and only if it was visited and has an attribute list |
| `Generator.Marked` | FunWithSourceGenerators/AsyncifyGenerator.cs:44-53 | the kept methods are no more than the candidates, and each carries the marker attribute class |
| `Generator.MarkedAppend` | FunWithSourceGenerators/AsyncifyGenerator.cs:45-52 | filtering distributes over concatenation, so kept methods stay in candidate order |
| `Generator.MarkedMembership` | FunWithSourceGenerators/AsyncifyGenerator.cs:47-52 | a method is kept if and only if it is some candidate's symbol and one of its attribute classes is the marker: nothing else is added |
| `Generator.KeepAnnotated` | FunWithSourceGenerators/AsyncifyGenerator.cs:44-53 | the foreach loop builds exactly the filtered list `Marked(candidates, marker)` |
| `Generator.GroupKeys` | FunWithSourceGenerators/AsyncifyGenerator.cs:55 | the group keys are pairwise distinct, and a type is a key if and only if some kept method is contained in it |
| `Generator.GroupOf` | FunWithSourceGenerators/AsyncifyGenerator.cs:55-57 | every member of a group is a kept method whose containing type is the key |
| `Generator.InOwnGroup` | FunWithSourceGenerators/AsyncifyGenerator.cs:55 | every kept method is in the group of its own containing type |
| `Generator.ExactlyOneGroup` | FunWithSourceGenerators/AsyncifyGenerator.cs:55-57 | each kept method's type is a key, the method is in that group, and it is in no group for any other type |
| `Generator.GroupOfAppend` | FunWithSourceGenerators/AsyncifyGenerator.cs:55-57 | grouping distributes over concatenation, so a group keeps its methods' relative order |
| `Generator.GroupsPartition` | FunWithSourceGenerators/AsyncifyGenerator.cs:55-57 | the sizes of all groups add up to the number of kept methods: the groups partition them |
| `Generator.GroupKeysOneType` | FunWithSourceGenerators/AsyncifyGenerator.cs:55 | methods that all live in one type form exactly one group |
| `Generator.UnitNameRoundTrip` | FunWithSourceGenerators/AsyncifyGenerator.cs:58 | the unit name ends in `_asyncify.cs`, and removing that suffix gives back exactly the type's simple name |
| `Generator.UnitNameCollides` | FunWithSourceGenerators/AsyncifyGenerator.cs:58 | two types get the same unit name if and only if their simple names are equal, whatever their namespaces |
| `Generator.ReachedKeys` | FunWithSourceGenerators/AsyncifyGenerator.cs:55-58 | the loop gets through the groups in order, up to but not including the first nested type, where `SourceText.From(null)` throws |
| `Generator.UnitAt` | FunWithSourceGenerators/AsyncifyGenerator.cs:55-58 | the i-th group reached gives the unit named after its key with its class text when the key is top-level; a nested key is where the handed-over units end and the pass throws |
| `Generator.AbortsIffNested` | FunWithSourceGenerators/AsyncifyGenerator.cs:57-58 | the pass throws if and only if some kept method lives in a nested type |
| `Generator.UnitsPerType` | FunWithSourceGenerators/AsyncifyGenerator.cs:55-59 | when no kept method lives in a nested type, the pass does not throw and hands over one unit per group, the i-th named after the i-th key with its non-empty group's class text |
| `Generator.OneTypeOneUnit` | FunWithSourceGenerators/AsyncifyGenerator.cs:55-59 | marked methods of one top-level type give exactly one unit, named from the type, whose class holds all their wrappers in order; of one nested type, no unit and the pass throws |
| `Generator.NestedGroupStopsPass` | FunWithSourceGenerators/AsyncifyGenerator.cs:57-58 | with a nested type's method kept before a top-level type's, no unit at all is handed over and the pass throws, although the top-level type is meant to get its unit |
| `Generator.IntendedUnitsPerType` | FunWithSourceGenerators/AsyncifyGenerator.cs:64-66 | skipping nested types as the TODO intends, the units are one per top-level type holding a kept method, no type twice, each with its name and its group's class text |
| `Generator.UnitsPrefixOfIntended` | FunWithSourceGenerators/AsyncifyGenerator.cs:55-59 | the units the pass hands over as written are a prefix of the intended ones, and all of them when it does not throw |
| `Generator.PassOutput` | FunWithSourceGenerators/AsyncifyGenerator.cs:26-33 | the attribute source always comes first, and when there is no receiver it is the only output and the pass does not throw |
| `Generator.GeneratorContext.AddSource` | FunWithSourceGenerators/AsyncifyGenerator.cs:58 | the host receives the (hint name, text) pair after those already added |
| `Generator.Execute` | FunWithSourceGenerators/AsyncifyGenerator.cs:26-60 | the pass appends the attribute source, then, when the receiver is present, one (unit name, class text) pair per group of the marked candidates in group order until the first nested type; it reports aborted exactly when it stopped there |
| `Generator.TestAppPass` | TestApp/Program.cs:4-17 | for the demo's `static void PrintNumber(int number)` in `TestApp.Program`, the pass yields the attribute source and one unit `Program_asyncify.cs` holding a static `Task PrintNumberAsync(int number)` that runs `PrintNumber(number)`, and does not throw |
| `Emission.StringBuilder.constructor` | FunWithSourceGenerators/AsyncifyGenerator.cs:72-79 | a new buffer holds the text it was created with |
| `Emission.StringBuilder.Append` | FunWithSourceGenerators/AsyncifyGenerator.cs:84-87 | appending puts the text after what the buffer held, changing nothing before it |
| `Emission.ProcessMethod` | FunWithSourceGenerators/AsyncifyGenerator.cs:91-119 | an async method leaves the buffer unchanged; otherwise exactly its wrapper text is appended |
| `Emission.MethodText` | FunWithSourceGenerators/AsyncifyGenerator.cs:91-118 | a method contributes no text exactly when it is async |
| `Emission.DeriveRecovers` | FunWithSourceGenerators/AsyncifyGenerator.cs:99-111 | the wrapper keeps the static flag and calls the method by its name; the method's name, return type and (for separable parameters) its parameters and their names, in order, read back from the wrapper's parts |
| `Emission.HeaderRoundTrip` | FunWithSourceGenerators/AsyncifyGenerator.cs:72-79 | the namespace display name and the class name can both be read back out of the header after its `using` line, provided neither contains a line break |
| `Emission.ProcessClass` | FunWithSourceGenerators/AsyncifyGenerator.cs:62-89 | the header-wrappers-footer loop yields exactly `ClassSource(type, methods)` |
| `Emission.ClassSource` | FunWithSourceGenerators/AsyncifyGenerator.cs:62-88 | null exactly when the type's containing symbol is not its namespace; otherwise the text starts with the header for that namespace and class name and ends with `} }` |
| `Emission.WrappersTextAppend` | FunWithSourceGenerators/AsyncifyGenerator.cs:82-85 | the wrappers of a list are those of its parts, one after the other: list order is kept |
| `Emission.AsyncMethodsEmitNothing` | FunWithSourceGenerators/AsyncifyGenerator.cs:93-97 | async methods contribute no text at all |
| `Emission.EmptyClassSource` | FunWithSourceGenerators/AsyncifyGenerator.cs:72-88 | a top-level type whose methods are all async still gets its header and footer, with nothing between |
| `Emission.RenderRoundTrip` | FunWithSourceGenerators/AsyncifyGenerator.cs:113-118 | the wrapper template loses nothing: the rendered text of a wrapper whose parts hold no delimiters parses back to that wrapper |
| `Emission.WrapperDescribesMethod` | FunWithSourceGenerators/AsyncifyGenerator.cs:99-118 | the wrapper text reads back as static iff the method is static, named the method's name plus `Async`, returning the task type of its return type, with its parameters in order, calling the original name with one argument per parameter, in order |
| `Emission.StaticExactlyWhenStatic` | FunWithSourceGenerators/AsyncifyGenerator.cs:101-114 | the word `static ` follows `public` in the wrapper if and only if the method is static |
| `Derivation.AsyncName` | FunWithSourceGenerators/AsyncifyGenerator.cs:99-100 | the wrapper name starts with the original name, is 5 characters longer, and so never equals it |
| `Derivation.AsyncNameRoundTrip` | FunWithSourceGenerators/AsyncifyGenerator.cs:100 | removing the `Async` suffix gives the original name back |
| `Derivation.AsyncNameInjective` | FunWithSourceGenerators/AsyncifyGenerator.cs:100 | different method names give different wrapper names |
| `Derivation.AsyncReturnType` | FunWithSourceGenerators/AsyncifyGenerator.cs:103-106 | the mapping is total; the result is `Task` if and only if the return type is `Void`, and always starts with `Task` |
| `Derivation.ReturnTypeRoundTrip` | FunWithSourceGenerators/AsyncifyGenerator.cs:104-106 | the original return-type name can be read back from the task type (`Task` gives `Void`, `Task<T>` gives `T`) |
| `Derivation.ReturnTypeInjective` | FunWithSourceGenerators/AsyncifyGenerator.cs:104-106 | different return types give different task types |
| `Derivation.ParameterList` | FunWithSourceGenerators/AsyncifyGenerator.cs:108-109 | the parameter text is empty exactly when the method has no parameters |
| `Derivation.ParameterListRoundTrip` | FunWithSourceGenerators/AsyncifyGenerator.cs:108-109 | the parameter text reads back as exactly the original parameters, types and names, in order |
| `Derivation.ArgumentList` | FunWithSourceGenerators/AsyncifyGenerator.cs:110-111 | the argument text is empty when there are no parameters, and, for named parameters, only then |
| `Derivation.ArgumentListEntries` | FunWithSourceGenerators/AsyncifyGenerator.cs:110-111 | the argument text splits at commas into one entry per parameter, the i-th being the i-th parameter's name |
| `Text.Join` | FunWithSourceGenerators/AsyncifyGenerator.cs:109-111 | a joined text is as long as its items together plus one separator between each two |
| `Text.SplitJoin` | FunWithSourceGenerators/AsyncifyGenerator.cs:109-111 | splitting a comma join of non-empty, comma-free items gives the items back, including for no items |

## Left out

- Compilation cloning and parsing of the attribute text (lines 35-38) are not
  modelled. `GetTypeByMetadataName` (line 41) becomes the `attributeSymbol`
  parameter of `Execute`.
- `GetSemanticModel`/`GetDeclaredSymbol` (lines 47-48) are not modelled: each
  declaration record already carries its declared symbol. The case where
  either returns null is not modelled.
- `SymbolEqualityComparer` (lines 49, 64) becomes identity equality. An
  attribute whose class does not resolve is not modelled.
- `SourceText.From` and `Encoding.UTF8` (lines 29, 58) are not modelled
  beyond the null check: a unit's text stays a string, and the exception
  thrown for a null text is the `aborted` result of `Execute`.
- What the host does after the pass throws (it keeps or drops the sources
  added before) is not part of this model. Neither is its reaction to a
  repeated hint name.
- `Initialize` and `RegisterForSyntaxNotifications` (lines 121-125) are host
  plug-in registration. The host's walk over the syntax trees is modelled
  only as `Walk`, a loop of notifications.
- The runtime meaning of `Task.Run` is not modelled. The wrapper body is text
  only.
- The demo console program's I/O is not modelled.
- The emitted text uses `\n` line endings, as in the source file's verbatim
  strings.
- Return and parameter types are given strings. The model does not derive
  them from type symbols: the return type is the symbol's metadata name
  (`Void`, `Boolean`) and each parameter type is its display text (`int`).
- Emission.WrapperDescribesMethod: stated only for methods whose name has no
  `(`, whose return-type name has no blank, and whose parameter names and types
  have no `,` or `)` (parameter names also no blank). Others, such as
  parameters of type `Dictionary<int, string>`, do not read back.
- Emission.DeriveRecovers: the parameters and their names are read back
  only for parameter types without a comma and names without a comma or
  blank, as for `Derivation.ParameterListRoundTrip`.
- Emission.RenderRoundTrip: stated only for wrappers whose parts hold none of
  the delimiters that follow them in the template.
- Derivation.ParameterListRoundTrip: stated only for parameter types without
  a comma and names without a comma or blank.
- Derivation.ArgumentListEntries: stated only for non-empty, comma-free names.
- Emission.HeaderRoundTrip: stated only for namespace and class names without a line break, since the header puts each name on its own line.
- Text.SplitJoin: stated only for non-empty, comma-free items.

## Findings

| source | as written | input that shows it | evidently intended | confidence | as-written member | corrected member |
|---|---|---|---|---|---|---|
| FunWithSourceGenerators/AsyncifyGenerator.cs:57-58 | the null that `ProcessClass` returns for a nested type goes to `SourceText.From`, which throws, ending the pass | kept methods `[a method of a nested type, then a method of a top-level type]`: no unit is handed over, not even the top-level type's | report the nested type (the TODO at line 66) and go on with the other groups | not executed; rests on `SourceText.From` rejecting a null text | `Generator.NestedGroupStopsPass` | `Generator.IntendedUnitsPerType` |

`Execute` keeps the behaviour as written. `IntendedUnits` is the corrected
definition, and `UnitsPrefixOfIntended` proves that the two agree on every
pass that does not throw.
