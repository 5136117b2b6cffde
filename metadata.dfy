/**
 * The inputs of help generation, as explicit records: what the generator
 * otherwise reads by reflection from an assembly (cmdlet attributes,
 * properties, `ParameterAttribute`s) and what the script parser returns as
 * comment help. A null string is modelled as "". The uses modelled here
 * treat null and empty alike: the `IsNullOrEmpty` tests on the default set
 * name, a variant's set name, the help message and a paragraph, and
 * `WriteElementString`, which writes an empty element for both. Set names
 * are never null in the model: a null `ParameterSetName` would throw at the
 * `ContainsKey` and `ToLower` of the syntax writer, where "" is an ordinary
 * key. A null list or dictionary is `None`, because the generator tests for it.
 */
module Metadata {
  import opened Wrappers

  /** A C# `int`. */
  type Int32 = x: int | -0x8000_0000 <= x < 0x8000_0000

  const MaxInt32: Int32 := 0x7FFF_FFFF
  const MinInt32: Int32 := -0x8000_0000

  /** The set name a `ParameterAttribute` carries when it names no set. */
  const AllParameterSets: string := "__AllParameterSets"

  /** One `[Parameter(...)]` attribute on a property. */
  datatype Variant = Variant(
    setName: string,
    mandatory: bool,
    position: Int32,
    byValue: bool,          // ValueFromPipeline
    byPropertyName: bool,   // ValueFromPipelineByPropertyName
    helpMessage: string)

  /**
   * The type of a property: `Nullable<T>` (runtime name "Nullable`1") or any
   * other type, with its array flag and, for an enumeration, its member names.
   */
  datatype ClrType =
    | Plain(name: string, isArray: bool, enumNames: Option<seq<string>>)
    | Nullable(core: ClrType)

  /** A public property of a cmdlet class; no variants means no `ParameterAttribute`. */
  datatype Property = Property(
    name: string,
    propertyType: ClrType,
    declaredOnPSCmdlet: bool,
    variants: seq<Variant>)

  /** The `[Cmdlet(verb, noun, DefaultParameterSetName = ...)]` attribute. */
  datatype Cmdlet = Cmdlet(verb: string, noun: string, defaultSet: string)

  /** An exported type: its cmdlet attribute if it has one, and its properties in order. */
  datatype ExportedType = ExportedType(cmdlet: Option<Cmdlet>, properties: seq<Property>)

  /** The assembly: exported types, version (already formatted) and copyright text. */
  datatype Assembly = Assembly(types: seq<ExportedType>, version: string, copyright: string)

  /** A `CommentHelpInfo` record. */
  datatype CommentHelp = CommentHelp(
    synopsis: string,
    description: string,
    parameters: Option<map<string, string>>,   // keyed by upper-cased parameter name
    examples: Option<seq<string>>,
    inputs: Option<seq<string>>,
    outputs: Option<seq<string>>,
    notes: string,
    links: Option<seq<string>>)

  /** `new CommentHelpInfo()`: every field null. */
  const EmptyComment: CommentHelp :=
    CommentHelp("", "", None, None, None, None, "", None)

  /** A script file: its base name and the help content parsed from it (None when
      the file is missing or holds no help content). */
  datatype CommentSource = CommentSource(baseName: string, help: Option<CommentHelp>)

  /** `String.Format("{0}-{1}", verb, noun)`. */
  function CommandName(c: Cmdlet): string {
    c.verb + "-" + c.noun
  }

  /** A null or empty list. */
  predicate IsNullOrEmpty(xs: Option<seq<string>>) {
    xs.None? || xs.value == []
  }
}
