/** The image-prompt template: the user's description wrapped in a fixed
    instruction, optional style and size lines, quality constraints and an
    output line, separated by blank lines. */
module Template {
  import opened Wrappers
  import Text

  const INSTRUCTION: string := "Bạn là mô hình tạo ảnh. Hãy tạo ảnh bám sát mô tả, tránh thêm chi tiết không được yêu cầu."
  const DESCRIPTION_LABEL: string := "Mô tả ảnh chi tiết: "
  const STYLE_LABEL: string := "Phong cách/Style: "
  const SIZE_LABEL: string := "Kích thước mong muốn: "
  const OUTPUT_LINE: string := "Đầu ra: Ảnh duy nhất đúng mô tả."

  /** The quality-constraints block: a heading and four rules, one per line. */
  const QUALITY_CONSTRAINTS: string :=
    "Ràng buộc chất lượng:\n"
    + "- Thành phần chính phải nổi bật, bố cục rõ ràng.\n"
    + "- Ánh sáng/phối màu hài hoà; tránh nhiễu/artefacts.\n"
    + "- Tránh text/branding không được yêu cầu trên ảnh.\n"
    + "- Trung thành với mô tả; không thêm đối tượng không nêu."

  const SECTION_SEPARATOR: string := "\n\n"

  /** The fixed wording of the template. The sections are built from a
      wording passed in, so that their properties are proved once for any
      wording; `WORDING` is the one the server uses. */
  datatype Wording = Wording(
    instruction: string, descriptionLabel: string, styleLabel: string,
    sizeLabel: string, qualityConstraints: string, outputLine: string)

  const WORDING: Wording :=
    Wording(INSTRUCTION, DESCRIPTION_LABEL, STYLE_LABEL, SIZE_LABEL, QUALITY_CONSTRAINTS, OUTPUT_LINE)

  /** The input; width and height are whole numbers when present. */
  datatype ImageTemplateInput = ImageTemplateInput(prompt: string, width: Option<int>, height: Option<int>, style: Option<string>)

  /** A number as a JavaScript condition: absent and 0 are false. */
  predicate NonZero(o: Option<int>) {
    o.Some? && o.value != 0
  }

  /** The `WxH px` text of the size line. */
  function SizeText(width: int, height: int): string {
    Text.IntToString(width) + "x" + Text.IntToString(height) + " px"
  }

  /** The style line, present iff a non-empty style is given. */
  function StyleSection(w: Wording, style: Option<string>): (r: seq<string>)
    ensures |r| == (if Text.Truthy(style) then 1 else 0)
    ensures Text.Truthy(style) ==> r[0] == w.styleLabel + style.value
  {
    if Text.Truthy(style) then [w.styleLabel + style.value] else []
  }

  /** The size line, present iff both sides are given and non-zero. */
  function SizeSection(w: Wording, width: Option<int>, height: Option<int>): (r: seq<string>)
    ensures |r| == (if NonZero(width) && NonZero(height) then 1 else 0)
    ensures NonZero(width) && NonZero(height) ==> r[0] == w.sizeLabel + SizeText(width.value, height.value)
  {
    if NonZero(width) && NonZero(height) then [w.sizeLabel + SizeText(width.value, height.value)] else []
  }

  /** The sections, in order: instruction, trimmed description, optional
      style, optional size, quality constraints, output line. */
  function Sections(w: Wording, input: ImageTemplateInput): (r: seq<string>)
    ensures 4 <= |r| <= 6
    ensures r[0] == w.instruction
    ensures r[1] == w.descriptionLabel + Text.Trim(input.prompt)
    ensures |r| == 4 + (if Text.Truthy(input.style) then 1 else 0)
                     + (if NonZero(input.width) && NonZero(input.height) then 1 else 0)
    ensures Text.Truthy(input.style) ==> r[2] == w.styleLabel + input.style.value
    ensures NonZero(input.width) && NonZero(input.height) ==>
      r[|r| - 3] == w.sizeLabel + SizeText(input.width.value, input.height.value)
    ensures r[|r| - 2] == w.qualityConstraints && r[|r| - 1] == w.outputLine
  {
    [w.instruction, w.descriptionLabel + Text.Trim(input.prompt)]
    + StyleSection(w, input.style)
    + SizeSection(w, input.width, input.height)
    + [w.qualityConstraints, w.outputLine]
  }

  /** The sections joined by blank lines. */
  function Prompt(w: Wording, input: ImageTemplateInput): (prompt: string)
    ensures Text.StartsWith(prompt, w.instruction + SECTION_SEPARATOR + (w.descriptionLabel + Text.Trim(input.prompt)))
    ensures Text.EndsWith(prompt, w.qualityConstraints + SECTION_SEPARATOR + w.outputLine)
    ensures prompt == Text.Join(Sections(w, input), SECTION_SEPARATOR)
  {
    var sections := Sections(w, input);
    Text.JoinStartsWithFirstTwo(sections, SECTION_SEPARATOR);
    Text.JoinEndsWithLastTwo(sections, SECTION_SEPARATOR);
    Text.Join(sections, SECTION_SEPARATOR)
  }

  /** `buildGoogleImagePrompt`. */
  function BuildGoogleImagePrompt(input: ImageTemplateInput): (prompt: string)
    ensures Text.StartsWith(prompt, INSTRUCTION + SECTION_SEPARATOR + (DESCRIPTION_LABEL + Text.Trim(input.prompt)))
    ensures Text.EndsWith(prompt, QUALITY_CONSTRAINTS + SECTION_SEPARATOR + OUTPUT_LINE)
    ensures prompt == Text.Join(Sections(WORDING, input), SECTION_SEPARATOR)
  {
    Prompt(WORDING, input)
  }

  /** White space around the description does not reach the prompt. */
  lemma SurroundingSpaceIgnored(input: ImageTemplateInput, c: char)
    requires Text.IsWhitespace(c)
    ensures BuildGoogleImagePrompt(input.(prompt := [c] + input.prompt)) == BuildGoogleImagePrompt(input)
    ensures BuildGoogleImagePrompt(input.(prompt := input.prompt + [c])) == BuildGoogleImagePrompt(input)
  {
    Text.TrimDropsLeadingWhitespace(c, input.prompt);
    Text.TrimDropsTrailingWhitespace(input.prompt, c);
    assert Sections(WORDING, input.(prompt := [c] + input.prompt)) == Sections(WORDING, input);
    assert Sections(WORDING, input.(prompt := input.prompt + [c])) == Sections(WORDING, input);
  }
}
