/**
 * The attribute texts the generator writes for a parameter: booleans, the
 * pipeline-input literal, the position, the type name and the help text.
 * Each rendering comes with a reader that recovers what was rendered.
 */
module Rendering {
  import opened Wrappers
  import opened Text
  import opened Metadata

  /** `b.ToString().ToLower()`. */
  function BoolText(b: bool): (r: string)
    ensures r == "true" || r == "false"
    ensures (r == "true") == b
  {
    if b then "true" else "false"
  }

  // ---------------------------------------------------------------- pipeline input

  /** Recovers (ValueFromPipeline, ValueFromPipelineByPropertyName) from a pipelineInput text. */
  function ReadPipelineInput(s: string): Option<(bool, bool)> {
    if s == "false" then Some((false, false))
    else if s == "true (ByValue, ByPropertyName)" then Some((true, true))
    else if s == "true (ByPropertyName)" then Some((false, true))
    else if s == "true (ByValue)" then Some((true, false))
    else None
  }

  /**
   * The pipelineInput attribute: one of four literals, chosen by the pair
   * (ValueFromPipeline, ValueFromPipelineByPropertyName); the pair can be
   * read back, so distinct pairs give distinct literals.
   */
  function PipelineInputText(byValue: bool, byPropertyName: bool): (r: string)
    ensures ReadPipelineInput(r) == Some((byValue, byPropertyName))
    ensures r == "false" <==> !byValue && !byPropertyName
  {
    if !byValue && !byPropertyName then "false"
    else if byValue && byPropertyName then "true (ByValue, ByPropertyName)"
    else if !byValue && byPropertyName then "true (ByPropertyName)"
    else "true (ByValue)"
  }

  // ---------------------------------------------------------------- position

  /** `position + 1` on a C# `int`, which wraps at `int.MaxValue`. */
  function Increment32(p: Int32): (r: Int32)
    ensures p < MaxInt32 ==> r == p + 1
    ensures p == MaxInt32 ==> r == MinInt32
  {
    if p == MaxInt32 then MinInt32 else p + 1
  }

  /** Recovers the zero-based position from a position text; None for "named". */
  function ReadPosition(s: string): Option<int> {
    if s != "" && IsDigits(s) then Some(DigitsValue(s) - 1) else None
  }

  /**
   * The position attribute: "named" for a negative position, otherwise the
   * decimal of the one-based position, which reads back as the position.
   */
  function PositionText(p: Int32): (r: string)
    ensures r == "named" <==> p < 0
    ensures p < 0 ==> ReadPosition(r) == None
    ensures 0 <= p < MaxInt32 ==> ReadPosition(r) == Some(p)
  {
    if p < 0 then "named"
    else
      var shown := Increment32(p);
      if p < MaxInt32 then
        DigitsValueOfNatToString(shown);
        IntToString(shown)
      else
        assert IntToString(shown)[0] == '-';
        IntToString(shown)
  }

  /** At `int.MaxValue` the one-based position wraps around and renders negative. */
  lemma PositionTextWrapsAtMaxValue()
    ensures PositionText(MaxInt32) == "-" + NatToString(0x8000_0000)
    ensures ReadPosition(PositionText(MaxInt32)) == None
  {
    assert PositionText(MaxInt32)[0] == '-';
  }

  // ---------------------------------------------------------------- types

  const NullableName: string := "Nullable`1"

  /** `Type.Name`. */
  function TypeName(t: ClrType): string {
    match t
    case Plain(name, _, _) => name
    case Nullable(_) => NullableName
  }

  /** `Type.IsArray`. */
  function IsArray(t: ClrType): bool {
    t.Plain? && t.isArray
  }

  /** `String.Join(" | ", Enum.GetNames(t))` for an enumeration, else `t.Name`. */
  function EnumOrName(t: ClrType): string {
    if t.Plain? && t.enumNames.Some? then Join(t.enumNames.value, " | ") else TypeName(t)
  }

  /**
   * The value type shown in a syntax item: a nullable type shows its
   * underlying type, an enumeration shows its members separated by " | ".
   */
  function SyntaxTypeName(t: ClrType): (r: string)
    ensures t.Plain? && t.enumNames.None? ==> r == t.name
    ensures t.Plain? && t.enumNames.Some? ==> r == Join(t.enumNames.value, " | ")
  {
    match t
    case Nullable(core) => EnumOrName(core)
    case Plain(_, _, _) => EnumOrName(t)
  }

  /** Wrapping a non-nullable type in `Nullable<>` does not change its syntax rendering. */
  lemma SyntaxTypeNameIgnoresNullable(core: ClrType)
    requires core.Plain?
    ensures SyntaxTypeName(Nullable(core)) == SyntaxTypeName(core)
  {
  }

  // ---------------------------------------------------------------- help text

  /**
   * The help message of a parameter: its attribute's `HelpMessage` when that
   * is non-empty; otherwise the comment help's entry under the upper-cased
   * parameter name, when there is one; otherwise the (empty) attribute value.
   */
  function HelpText(attributeHelp: string, parameters: Option<map<string, string>>, name: string): (r: string)
    ensures attributeHelp != "" ==> r == attributeHelp
    ensures attributeHelp == "" && parameters.Some? && Upper(name) in parameters.value ==>
      r == parameters.value[Upper(name)]
    ensures attributeHelp == "" && !(parameters.Some? && Upper(name) in parameters.value) ==> r == ""
  {
    if attributeHelp == "" && parameters.Some? && Upper(name) in parameters.value then
      parameters.value[Upper(name)]
    else attributeHelp
  }
}
