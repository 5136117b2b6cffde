# MAML help generation for PowerShell cmdlets

This project models `CmdletHelpGenerator`, the part of PowerShell.MamlGenerator
that turns a compiled cmdlet module into a MAML help document. For every
exported type with a `[Cmdlet]` attribute the generator writes one
`command:command` entry. Each entry has eleven sections in a fixed order:
details, description, syntax, the flat parameter list, input types, return
values, two empty error placeholders, notes, examples and related links. The
text comes from the cmdlet's attributes and from the comment-based help found
in script files whose base name is the command name.

The model has two layers.

* **The document as values** (modules `Text`, `Rendering`, `Variants`,
  `ParameterSets`, `CommentIndex`, `Document`):
  * attribute literals and their readers;
  * the choice of a representative `ParameterAttribute`;
  * the grouping of properties by parameter set, in insertion order, with
    the all-sets group split off as common parameters;
  * the syntax items;
  * the comment index;
  * the tree (`Xml.Node`) of every section.
* **The writer-driven generator** (module `HelpGenerator`, over the `Xml.Writer`
  class):
  * every `Write*` routine of the source is a method that makes the same
    writer calls in the same order, except that the empty input-types and
    return-values placeholders (lines 398 and 418) are written corrected,
    as `command:inputTypes` and `command:returnValues` (see Findings);
  * each method is proved to append exactly `Serialize` of the matching tree;
  * `GenerateHelp` is proved to produce `Document.HelpDocument`, or to fail
    where the source throws.

The inputs that the source reads by reflection or by parsing scripts are
explicit records (module `Metadata`):
* `Cmdlet` (verb, noun, default set);
* `Property` (name, type, declared on `PSCmdlet`, its `ParameterAttribute`s);
* `Variant` (one `ParameterAttribute`);
* `CommentHelp` (a `CommentHelpInfo`);
* `CommentSource` (a script's base name and its parsed help, if any).

A null string is modelled as "". The uses the model covers treat null and ""
alike: the `IsNullOrEmpty` tests on the default set name (line 112), on a
variant's set name (line 116), on the help message (line 159) and on a
paragraph (line 502), and `WriteElementString`, which writes an empty element
for both. A null `ParameterSetName` is the exception (see Left out). A null
list or dictionary is `None`, because the generator tests for it.

Module `GetProcFixture` proves, for the sample `Get-Proc` cmdlet, that the
resolver and the syntax synthesiser give two syntax items, `Id` and `OneOnly`,
each closed by the common `DoNothing` parameter.

The model follows these details of the code:
* The fallback variant of the flat list is the LAST all-sets variant. `defaultPA`
  is overwritten on each one, so it is not the first.
* A second script with the same base name is an error. `Dictionary.Add` throws;
  it is not last-write-wins.
* Common parameters in a syntax item use their first attribute `pas[0]`, not
  their all-sets attribute.
* The return-values section lists the INPUT descriptions: it tests `Outputs`
  but iterates `Inputs`. When `Inputs` is null this throws, and the model
  makes it an error result of the run.

## Model

| member | source | states |
|---|---|---|
| Text.SplitLines | PowerShell.MamlGenerator/CmdletHelpGenerator.cs:507 | the split has at least one segment, the first segment is a prefix of the input, and no segment contains "\r\n" |
| Text.JoinSplitLines | PowerShell.MamlGenerator/CmdletHelpGenerator.cs:507-509 | joining the split segments with "\r\n" gives back the input, for every string |
| Text.DigitsValueOfNatToString | PowerShell.MamlGenerator/CmdletHelpGenerator.cs:151 | reading back the decimal rendering of a number gives that number |
| Text.NatToStringInjective | PowerShell.MamlGenerator/CmdletHelpGenerator.cs:382 | two numbers with the same decimal rendering are equal |
| Rendering.BoolText | PowerShell.MamlGenerator/CmdletHelpGenerator.cs:134 | `ToString().ToLower()` of a bool is "true" or "false", and it is "true" exactly when the bool holds |
| Rendering.PipelineInputText | PowerShell.MamlGenerator/CmdletHelpGenerator.cs:139-146 | the literal reads back as the (ByValue, ByPropertyName) pair, so the four pairs give four distinct literals; it is "false" exactly when neither flag is set |
| Rendering.Increment32 | PowerShell.MamlGenerator/CmdletHelpGenerator.cs:151 | `Position + 1` on a C# int: the successor below `int.MaxValue`, `int.MinValue` at it |
| Rendering.PositionText | PowerShell.MamlGenerator/CmdletHelpGenerator.cs:148-151 | "named" exactly for a negative position; a non-negative position below `int.MaxValue` reads back as itself (the text is the one-based decimal) |
| Rendering.PositionTextWrapsAtMaxValue | PowerShell.MamlGenerator/CmdletHelpGenerator.cs:151 | at `int.MaxValue` the position text is "-2147483648", which is not a readable position |
| Rendering.SyntaxTypeName | PowerShell.MamlGenerator/CmdletHelpGenerator.cs:303-317 | a plain non-enumeration type shows its name; an enumeration shows its member names joined by a vertical-bar separator |
| Rendering.SyntaxTypeNameIgnoresNullable | PowerShell.MamlGenerator/CmdletHelpGenerator.cs:303-310 | a `Nullable<T>` shows exactly what `T` shows |
| Rendering.HelpText | PowerShell.MamlGenerator/CmdletHelpGenerator.cs:158-165 | a non-empty attribute help message wins; otherwise the comment entry under the upper-cased name, if there is one; otherwise "" |
| Variants.FirstDefaultMatch | PowerShell.MamlGenerator/CmdletHelpGenerator.cs:109-125 | the index found is the first variant in the default set (case-insensitive, all-sets counting as ""); None means no variant is in it |
| Variants.LastAllSets | PowerShell.MamlGenerator/CmdletHelpGenerator.cs:115-120 | the index found is the last all-sets variant; None means there is none |
| Variants.Representative | PowerShell.MamlGenerator/CmdletHelpGenerator.cs:102-131 | the representative is always one of the property's variants |
| Variants.RepresentativePrecedence | PowerShell.MamlGenerator/CmdletHelpGenerator.cs:102-131 | four-step precedence: the only variant; else the first in the default set; else the last all-sets variant; else the first |
| Variants.SelectVariant | PowerShell.MamlGenerator/CmdletHelpGenerator.cs:102-131 | the search loop, with its mutable `pa`/`defaultPA` and `break`, returns the representative |
| Variants.FirstInSet | PowerShell.MamlGenerator/CmdletHelpGenerator.cs:274-281 | the index found is the first variant naming the set, ignoring case; None means no variant names it |
| Variants.GetParameterAttribute | PowerShell.MamlGenerator/CmdletHelpGenerator.cs:268-283 | returns the first variant naming the set, ignoring case; None exactly when no variant names it |
| ParameterSets.GroupKeys | PowerShell.MamlGenerator/CmdletHelpGenerator.cs:206-226 | the grouped dictionary has distinct keys, exactly the set names that occur, and the same key set in both of its views |
| ParameterSets.GroupMembers | PowerShell.MamlGenerator/CmdletHelpGenerator.cs:206-226 | each group lists, in order, the owning property of every attribute naming that set (a property once per such attribute) |
| ParameterSets.GroupOrder | PowerShell.MamlGenerator/CmdletHelpGenerator.cs:206-226 | the keys are in the order their set names first occur |
| ParameterSets.AddMatches | PowerShell.MamlGenerator/CmdletHelpGenerator.cs:218-224 | the source's two steps (create the list when missing, then append) equal one `Add` to the insertion-ordered table |
| ParameterSets.RemoveKey | PowerShell.MamlGenerator/CmdletHelpGenerator.cs:231 | after removal the keys are exactly the old ones other than the removed key |
| ParameterSets.RemoveKeyPreservesOrder | PowerShell.MamlGenerator/CmdletHelpGenerator.cs:231 | removing a key keeps the other keys in first-seen order |
| ParameterSets.Resolve | PowerShell.MamlGenerator/CmdletHelpGenerator.cs:228-232 | the resolved table has distinct keys that match its dictionary |
| ParameterSets.ResolveSpec | PowerShell.MamlGenerator/CmdletHelpGenerator.cs:206-232 | the all-sets group is split off iff there is more than one group and it is one of them; the common list is then its members; the remaining keys are exactly the other set names, in first-seen order, each with its members; otherwise the table is the grouping unchanged |
| ParameterSets.GroupParameterSets | PowerShell.MamlGenerator/CmdletHelpGenerator.cs:206-226 | the nested loops that fill the dictionary in place build `Group(Pairs(props))` |
| ParameterSets.ResolveParameterSets | PowerShell.MamlGenerator/CmdletHelpGenerator.cs:206-232 | grouping and then removing the all-sets entry yields `Resolve(props)` |
| ParameterSets.SyntaxItems | PowerShell.MamlGenerator/CmdletHelpGenerator.cs:235-238 | there is one entry list per resolved set |
| ParameterSets.SetEntriesSpec | PowerShell.MamlGenerator/CmdletHelpGenerator.cs:247-254 | a set's own entries are the members that have a variant in the set, each paired with its first such variant, in member order and once per occurrence: a strictly increasing index map sends the entries onto exactly the members with such a variant |
| ParameterSets.CommonEntriesSpec | PowerShell.MamlGenerator/CmdletHelpGenerator.cs:255-263 | every common entry is rendered with the property's FIRST variant; when every common property has a variant, the entries are exactly the common properties, in order, each with its first variant |
| ParameterSets.CommonEntriesOfResolve | PowerShell.MamlGenerator/CmdletHelpGenerator.cs:206-232 | every property of the split-off common list carries an all-sets attribute, so its entries are all of those properties, in order, each with its first attribute |
| ParameterSets.CommonParametersCloseEveryItem | PowerShell.MamlGenerator/CmdletHelpGenerator.cs:228-266 | when the all-sets group is split off, there is one item per other set, and each item is that set's entries followed by all common entries |
| ParameterSets.SingleSetGivesOneItem | PowerShell.MamlGenerator/CmdletHelpGenerator.cs:204-266 | when every property with a `ParameterAttribute` has exactly one, all naming the same set, and at least one property has one, there is exactly one syntax item, listing those properties in declaration order and skipping the others |
| ParameterSets.WithAttributes | PowerShell.MamlGenerator/CmdletHelpGenerator.cs:96-100 | the kept properties are exactly those that carry a `ParameterAttribute` |
| ParameterSets.PairsWithoutAttributes | PowerShell.MamlGenerator/CmdletHelpGenerator.cs:209-213 | properties without a `ParameterAttribute` give no (property, set) pair and none of them is kept |
| CommentIndex.IndexOfSpec | PowerShell.MamlGenerator/CmdletHelpGenerator.cs:32-44 | the index is built iff the parsed sources have distinct base names; it then maps exactly those names, each to its source's help; otherwise the error names a base name shared by two parsed sources |
| CommentIndex.BuildCommentIndex | PowerShell.MamlGenerator/CmdletHelpGenerator.cs:32-44 | the loop that skips unparsed sources and `Add`s the others returns `IndexOf(sources)`, including its failure |
| CommentIndex.IndexOfFailureSticks | PowerShell.MamlGenerator/CmdletHelpGenerator.cs:43 | once a prefix of the sources fails, the whole run fails with the same key |
| CommentIndex.CommentFor | PowerShell.MamlGenerator/CmdletHelpGenerator.cs:60 | a command gets its index entry when there is one, and the empty help record when there is none |
| Document.ParaNodesSpec | PowerShell.MamlGenerator/CmdletHelpGenerator.cs:500-510 | at least one `maml:para`; no paragraph holds "\r\n"; joining the paragraph texts with "\r\n" gives back the text; an empty text gives exactly one empty paragraph |
| Document.ExampleTitleSpec | PowerShell.MamlGenerator/CmdletHelpGenerator.cs:378-382 | a single example gets the fixed banner; among several, example i gets a title that reads back as the number i + 1 |
| Document.ExampleTitlesDistinct | PowerShell.MamlGenerator/CmdletHelpGenerator.cs:380-382 | among several examples no two titles are equal |
| Document.ExamplesNodeSpec | PowerShell.MamlGenerator/CmdletHelpGenerator.cs:364-392 | the section is always `command:examples`; it is empty iff the list is null or empty; otherwise it holds one entry per example, each with its title and code |
| Document.InputsPlaceholderMisnamed | PowerShell.MamlGenerator/CmdletHelpGenerator.cs:396-399 | as written, a command without inputs gets an element `command` in namespace "inputTypes", not a `command:inputTypes` |
| Document.InputsNodeSpec | PowerShell.MamlGenerator/CmdletHelpGenerator.cs:394-412 | corrected: the section is always `command:inputTypes`; it is empty iff there are no inputs; otherwise it has one child per input |
| Document.OutputsPlaceholderMisnamed | PowerShell.MamlGenerator/CmdletHelpGenerator.cs:416-419 | as written, a command without outputs gets an element `command` in namespace "returnValues" instead of `command:returnValues` |
| Document.OutputsNodeSpec | PowerShell.MamlGenerator/CmdletHelpGenerator.cs:414-432 | corrected: the section is always `command:returnValues`; it is the empty placeholder when there are no outputs; otherwise it has one child per INPUT, each describing that input |
| Document.LinksNodeSpec | PowerShell.MamlGenerator/CmdletHelpGenerator.cs:450-469 | the section is always `maml:relatedLinks`; it is empty iff the list is null or empty; otherwise it holds one `navigationLink` per link, in order, with that link's text and an empty uri |
| Document.SyntaxItemTail | PowerShell.MamlGenerator/CmdletHelpGenerator.cs:242-266 | a syntax item starts with the command name, and its last children are the entries appended last |
| Document.SyntaxNodeSpec | PowerShell.MamlGenerator/CmdletHelpGenerator.cs:204-266 | the syntax section has exactly one `syntaxItem` per resolved set; each starts with `Verb-Noun`; when the all-sets group was split off, each ends with one parameter per common property, in order, rendered with its first attribute, and otherwise nothing is appended |
| Document.FlatAttrsSpec | PowerShell.MamlGenerator/CmdletHelpGenerator.cs:133-151 | a flat entry's `required`, `position` and `pipelineInput` attributes carry the chosen attribute's values, and the pipeline literal reads back as its flags |
| Document.FlatAgreesWithSyntax | PowerShell.MamlGenerator/CmdletHelpGenerator.cs:288-293 | the flat entry and the syntax entry rendered from the same attribute show the same `required` and `position` |
| Document.FlatChildrenSpec | PowerShell.MamlGenerator/CmdletHelpGenerator.cs:156-174 | a flat entry names the property, its description paragraphs join back to the help text, and its value is the plain type name |
| Document.FlatAndSyntaxTypeNamesDiffer | PowerShell.MamlGenerator/CmdletHelpGenerator.cs:171 | for a nullable enumeration the flat list shows the runtime name of `Nullable<T>` while the syntax shows the member names |
| Document.FlatParameterNodesSpec | PowerShell.MamlGenerator/CmdletHelpGenerator.cs:94-177 | the flat list has exactly one entry per property with a `ParameterAttribute`, in order, each rendered from its representative |
| Document.CommandSectionsSpec | PowerShell.MamlGenerator/CmdletHelpGenerator.cs:62-192 | every command entry has the same eleven sections in the same order, whatever the metadata and help; none is omitted |
| Document.DetailsSpec | PowerShell.MamlGenerator/CmdletHelpGenerator.cs:79 | the synopsis in `command:details` is written without the copyright |
| Document.CommandDescriptionSpec | PowerShell.MamlGenerator/CmdletHelpGenerator.cs:90 | the full description is its paragraphs, then an empty paragraph, then the copyright's paragraphs |
| Document.CommandWithoutParameters | PowerShell.MamlGenerator/CmdletHelpGenerator.cs:92-178 | a command none of whose properties carries a `ParameterAttribute` still has an (empty) syntax section and an (empty) parameter list |
| Document.FirstFailurePrefix | PowerShell.MamlGenerator/CmdletHelpGenerator.cs:54-193 | once an earlier command aborts the run, the run's failure is that command's |
| Document.HelpDocumentWellFormed | PowerShell.MamlGenerator/CmdletHelpGenerator.cs:49-196 | a successful run starts and ends the document, and between them every element is closed and attributes occur only in start tags |
| HelpGenerator.WritePara | PowerShell.MamlGenerator/CmdletHelpGenerator.cs:500-510 | appends exactly the paragraphs of the text |
| HelpGenerator.WriteDescription | PowerShell.MamlGenerator/CmdletHelpGenerator.cs:352-362 | appends exactly the `maml:description` of the text, with the copyright when asked |
| HelpGenerator.WriteCommentDescription | PowerShell.MamlGenerator/CmdletHelpGenerator.cs:332-350 | appends the description of the synopsis or of the description, as selected |
| HelpGenerator.WriteCopyright | PowerShell.MamlGenerator/CmdletHelpGenerator.cs:493-498 | appends exactly the `maml:copyright` element |
| HelpGenerator.WriteDevType | PowerShell.MamlGenerator/CmdletHelpGenerator.cs:323-330 | appends exactly the `dev:type` element |
| HelpGenerator.WriteNotes | PowerShell.MamlGenerator/CmdletHelpGenerator.cs:434-448 | appends exactly the `maml:alertSet` holding the notes |
| HelpGenerator.ExampleTitleText | PowerShell.MamlGenerator/CmdletHelpGenerator.cs:378-382 | the title computed is the example's title |
| HelpGenerator.WriteExample | PowerShell.MamlGenerator/CmdletHelpGenerator.cs:376-388 | appends exactly one `command:example` |
| HelpGenerator.WriteExamples | PowerShell.MamlGenerator/CmdletHelpGenerator.cs:364-392 | appends exactly the examples section |
| HelpGenerator.WriteDescribed | PowerShell.MamlGenerator/CmdletHelpGenerator.cs:405-408 | appends one `inputType` or `returnValue` wrapping a description |
| HelpGenerator.WriteInputs | PowerShell.MamlGenerator/CmdletHelpGenerator.cs:394-412 | appends exactly the (corrected) input-types section |
| HelpGenerator.WriteOutputs | PowerShell.MamlGenerator/CmdletHelpGenerator.cs:414-432 | fails exactly when outputs exist and inputs are null; otherwise appends exactly the (corrected) return-values section |
| HelpGenerator.WriteLink | PowerShell.MamlGenerator/CmdletHelpGenerator.cs:462-465 | appends exactly one `maml:navigationLink` |
| HelpGenerator.WriteRelatedLinks | PowerShell.MamlGenerator/CmdletHelpGenerator.cs:450-469 | appends exactly the related-links section |
| HelpGenerator.WriteSyntaxParameterValue | PowerShell.MamlGenerator/CmdletHelpGenerator.cs:296-319 | appends the syntax `parameterValue` of the property: the nested nullable and enumeration tests write the syntax type name, and `required` is "false" exactly for a property declared on `PSCmdlet` |
| HelpGenerator.Position | PowerShell.MamlGenerator/CmdletHelpGenerator.cs:290-293 | the position text computed is `PositionText` |
| HelpGenerator.WriteParameter | PowerShell.MamlGenerator/CmdletHelpGenerator.cs:285-321 | appends exactly one syntax `command:parameter` |
| HelpGenerator.WriteSetParameters | PowerShell.MamlGenerator/CmdletHelpGenerator.cs:247-254 | appends one parameter per set member with a matching attribute, as `SetEntries` |
| HelpGenerator.WriteCommonParameters | PowerShell.MamlGenerator/CmdletHelpGenerator.cs:255-264 | appends one parameter per common property, with its first attribute, as `CommonEntries` |
| HelpGenerator.WriteItemParameters | PowerShell.MamlGenerator/CmdletHelpGenerator.cs:247-264 | appends the set's own parameters followed by the common ones |
| HelpGenerator.WriteSyntaxItem | PowerShell.MamlGenerator/CmdletHelpGenerator.cs:242-266 | appends exactly one `command:syntaxItem` |
| HelpGenerator.WriteSyntax | PowerShell.MamlGenerator/CmdletHelpGenerator.cs:204-240 | appends exactly the syntax section of the resolved sets |
| HelpGenerator.WriteFlatParameterValue | PowerShell.MamlGenerator/CmdletHelpGenerator.cs:168-172 | appends exactly the flat entry's `command:parameterValue` |
| HelpGenerator.PipelineInput | PowerShell.MamlGenerator/CmdletHelpGenerator.cs:139-146 | the four-way branch gives the literal that reads back as the attribute's flags |
| HelpGenerator.WriteFlatParameterStart | PowerShell.MamlGenerator/CmdletHelpGenerator.cs:133-154 | appends the start tag and the five attributes in the source's order |
| HelpGenerator.ParameterHelp | PowerShell.MamlGenerator/CmdletHelpGenerator.cs:158-165 | the help message computed is `HelpText` |
| HelpGenerator.WriteFlatParameterChildren | PowerShell.MamlGenerator/CmdletHelpGenerator.cs:156-174 | appends the name, the description, the value and the dev type |
| HelpGenerator.WriteFlatParameter | PowerShell.MamlGenerator/CmdletHelpGenerator.cs:133-176 | appends exactly one flat `command:parameter` |
| HelpGenerator.WriteParameters | PowerShell.MamlGenerator/CmdletHelpGenerator.cs:94-178 | appends exactly the flat parameter list, choosing each representative with `SelectVariant` |
| HelpGenerator.WriteDetails | PowerShell.MamlGenerator/CmdletHelpGenerator.cs:69-88 | appends exactly the `command:details` block |
| HelpGenerator.WriteLeadingSections | PowerShell.MamlGenerator/CmdletHelpGenerator.cs:69-180 | appends details, description, syntax, parameters and inputs, in order |
| HelpGenerator.WriteTrailingSections | PowerShell.MamlGenerator/CmdletHelpGenerator.cs:184-190 | appends the two error placeholders, notes, examples and links, in order |
| HelpGenerator.WriteCommand | PowerShell.MamlGenerator/CmdletHelpGenerator.cs:62-192 | fails exactly where `WriteOutputs` throws; otherwise appends exactly the command entry |
| HelpGenerator.WriteEntry | PowerShell.MamlGenerator/CmdletHelpGenerator.cs:56-192 | a type without a cmdlet attribute writes nothing; otherwise the command entry, with the looked-up help or the empty record |
| HelpGenerator.WriteCommands | PowerShell.MamlGenerator/CmdletHelpGenerator.cs:54-193 | reports the first failing command, if any; otherwise appends one entry per cmdlet type, in order |
| HelpGenerator.GenerateHelp | PowerShell.MamlGenerator/CmdletHelpGenerator.cs:23-196 | the run yields the writer calls of the help document, or the error the source throws (duplicate comment file, or null inputs) |
| GetProcFixture.GetProcPairs | Microsoft.Samples.PowerShell/Commands/GetProcCommand.cs:15-23 | the four (property, set) pairs of `Get-Proc`, in declaration order |
| GetProcFixture.GetProcGroup | Microsoft.Samples.PowerShell/Commands/GetProcCommand.cs:15-23 | the grouping finds `Id`, `OneOnly` and the all-sets group, in that order, with their members |
| GetProcFixture.GetProcResolves | Microsoft.Samples.PowerShell/Commands/GetProcCommand.cs:15-23 | the all-sets group is split off as the common list `[DoNothing]`; the sets `Id` and `OneOnly` remain |
| GetProcFixture.GetProcSetEntries | Microsoft.Samples.PowerShell/Commands/GetProcCommand.cs:15-20 | each set's entries pick the attribute of that set |
| GetProcFixture.GetProcSyntaxItems | Microsoft.Samples.PowerShell/Commands/GetProcCommand.cs:12-23 | two syntax items, `Id` then `OneOnly`, each closed by `DoNothing` |
| GetProcFixture.GetProcFlatId | Microsoft.Samples.PowerShell/Commands/GetProcCommand.cs:12-17 | in the flat list `Id` is described by its `Id` attribute (the default set) and its position is "named" |
| GetProcFixture.GetProcSyntaxSection | Microsoft.Samples.PowerShell/Commands/GetProcCommand.cs:12-23 | the syntax section has two items, each named `Get-Proc` and each ending with the `DoNothing` parameter |

## Left out

- Reflection and assembly loading are not modelled. The model takes the exported types, their cmdlet attributes, properties, property types and `ParameterAttribute`s as input records. This covers `Assembly.LoadFrom`, `GetExportedTypes`, `GetCustomAttributes`, `GetProperties`, `DeclaringType`, `GetGenericArguments` and `Enum.GetNames`. `GetAttribute<T>` is not part of this model; a property without attributes has an empty variant list.
- The copyright is an input. Its derivation from the assembly's copyright and description attributes (lines 25-30) is not modelled. Neither is the static `_copyright` keeping its value from an earlier run when the attribute is missing.
- The assembly version is an input string. `Version.ToString(3)` is a library formatting call.
- The script parser and the file system are inputs. `Parser.ParseFile(...).GetHelpContent()` and the `FileInfo.Exists` test become a list of (base name, optional parsed help); `Path.GetFileNameWithoutExtension` is already applied.
- `XmlTextWriter` is not modelled: indentation, escaping, namespace declarations and the bytes produced. `Xml.Writer` records the calls it receives, with their names and values, as events.
- The output file is not modelled: the `StringBuilder`, `Flush` and `File.WriteAllText` to `<name>.dll-help.xml` (lines 197-199).
- The path overload `GenerateHelp(string assemblyPath, ...)` (lines 18-21) only loads the assembly, so it is not modelled.
- Text.Lower: `ToLower` uses the current culture; the model maps only ASCII letters.
- Text.Upper: `ToUpper` uses the current culture; the model maps only ASCII letters.
- Rendering.HelpText: `ToUpper` of the property name is ASCII upper-casing, as above.
- A null `ParameterSetName` is not modelled: set names are plain strings. On null, `ContainsKey` at line 218 and `ToLower()` at line 276 would throw, while "" is an ordinary key at both. PowerShell's `ParameterAttribute`, which defaults the name to the all-sets name, is not part of this model.
- Exceptions other than the two the source's own logic raises are not modelled. The two that are: the duplicate comment key, and iterating null inputs. Out-of-memory and writer I/O errors are left out.
- HelpGenerator.WriteInputs: with no inputs it writes an empty `command:inputTypes`, where line 398 writes an element `command` in namespace "inputTypes" (see Findings). The as-written section is `Document.InputsNodeAsWritten`.
- HelpGenerator.WriteOutputs: with no outputs it writes an empty `command:returnValues`, where line 418 writes an element `command` in namespace "returnValues" (see Findings). The as-written section is `Document.OutputsNodeAsWritten`.
- HelpGenerator.GenerateHelp: proved equal to `Document.HelpDocument`, whose input-types and return-values placeholders are the corrected ones, not the elements lines 398 and 418 write. The methods between it and the two above (`WriteLeadingSections`, `WriteCommand`, `WriteEntry`, `WriteCommands`) carry the same difference.
- The `ProcessRecord` method of the sample cmdlet (Microsoft.Samples.PowerShell/Commands/GetProcCommand.cs:33-43) is operating-system I/O. Only its attribute declarations are used.
- Runner/Program.cs is not part of this model. It is a command-line entry point with fixed paths and directory listing.

## Findings

| source | as written | input that shows it | evidently intended | confidence | as-written member | corrected member |
|---|---|---|---|---|---|---|
| PowerShell.MamlGenerator/CmdletHelpGenerator.cs:398 | `WriteElementString("command", "inputTypes", null)` is the three-argument overload (localName, ns, value). It writes an element named `command` in namespace "inputTypes" | a command whose comment help has no inputs (or no comment help at all) | an empty `command:inputTypes` element, as the examples and links placeholders are written | not executed | Document.InputsNodeAsWritten, Document.InputsPlaceholderMisnamed | Document.InputsNode, Document.InputsNodeSpec |
| PowerShell.MamlGenerator/CmdletHelpGenerator.cs:418 | `WriteElementString("command", "returnValues", null)`, the same overload, writes an element `command` in namespace "returnValues" | a command whose comment help has no outputs | an empty `command:returnValues` element | not executed | Document.OutputsNodeAsWritten, Document.OutputsPlaceholderMisnamed | Document.OutputsNode, Document.OutputsNodeSpec |
