// The layout of one line of the usage text: an option name indented by its
// nesting level, then its description in a fixed column.

module Options {
  import opened Common

  const USAGE_INDENT_STEP: int := 4
  const USAGE_OPT_NAME_COLWIDTH: int := 48

  /** "%*s" applied to "": a negative field width is read as left
      justification, so the text is |width| spaces either way. */
  function Field(width: int): (s: string)
    ensures |s| == if width < 0 then -width else width
    ensures forall i :: 0 <= i < |s| ==> s[i] == ' '
  {
    Repeat(' ', if width < 0 then -width else width)
  }

  /** descr_shiftwidth: the padding between the name and the description,
      clamped to at least 1. */
  function ShiftWidth(name: string, indent: int): (w: int)
    ensures w >= 1
    ensures w >= USAGE_OPT_NAME_COLWIDTH - |name| - indent * USAGE_INDENT_STEP
    ensures w == 1 || w == USAGE_OPT_NAME_COLWIDTH - |name| - indent * USAGE_INDENT_STEP
  {
    var w := USAGE_OPT_NAME_COLWIDTH - |name| - indent * USAGE_INDENT_STEP;
    if w < 1 then 1 else w
  }

  /** The part of the line before the description. */
  function Prefix(name: string, indent: int): string {
    Field(indent * USAGE_INDENT_STEP) + name + Field(ShiftWidth(name, indent))
  }

  /** describe_option: the line written to stderr. */
  function DescribeOption(name: string, description: string, indent: int): string {
    Prefix(name, indent) + description + "\n"
  }

  /** For a non-negative level, the description starts in column 48, or one
      space after the name when the name reaches that column. */
  lemma DescriptionColumn(name: string, description: string, indent: int)
    requires indent >= 0
    ensures var col := |Prefix(name, indent)|;
      col == if 4 * indent + |name| + 1 > 48 then 4 * indent + |name| + 1 else 48
    ensures var line := DescribeOption(name, description, indent);
      line[|Prefix(name, indent)|..] == description + "\n"
  {
    var line := DescribeOption(name, description, indent);
    assert line == Prefix(name, indent) + (description + "\n");
  }

  /** The line holds the indentation, the name at its indented position,
      and spaces up to the description. */
  lemma LineLayout(name: string, description: string, indent: int)
    requires indent >= 0
    ensures var line := DescribeOption(name, description, indent);
      |line| > 4 * indent + |name| &&
      line[..4 * indent] == Repeat(' ', 4 * indent) &&
      line[4 * indent..4 * indent + |name|] == name &&
      forall i :: 4 * indent + |name| <= i < |Prefix(name, indent)| ==> line[i] == ' '
  {
    var line := DescribeOption(name, description, indent);
    var ind := Field(indent * USAGE_INDENT_STEP);
    var pad := Field(ShiftWidth(name, indent));
    assert line == ind + name + pad + (description + "\n");
    assert line[..4 * indent] == ind;
    assert line[4 * indent..4 * indent + |name|] == name;
    forall i | 4 * indent + |name| <= i < |Prefix(name, indent)|
      ensures line[i] == ' '
    {
      assert line[i] == pad[i - 4 * indent - |name|];
    }
  }

  /** A name that reaches the description column is followed by exactly one
      space. */
  lemma LongNameOneSpace(name: string, description: string, indent: int)
    requires indent >= 0 && 4 * indent + |name| >= USAGE_OPT_NAME_COLWIDTH - 1
    ensures Prefix(name, indent) == Repeat(' ', 4 * indent) + name + " "
  {
    assert Field(ShiftWidth(name, indent)) == " ";
  }
}
