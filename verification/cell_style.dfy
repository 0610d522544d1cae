/** Cell-style policies (the classes under lib/CellStyle): each declares the data type a
    column's values are written with and how a range of such cells is
    styled. The library `Style` object is replaced by a descriptor of the two
    properties a policy may set, and by `CellFormat`, the part of a cell's
    style those properties live in. */
module CellStyles {
  import opened Wrappers
  import PhpStrings

  /** The explicit data types the writer passes to the sheet. */
  datatype DataType = TypeString | TypeNumeric | TypeNull

  datatype HorizontalAlignment = HorizontalGeneral | HorizontalLeft | HorizontalCenter

  /** What `styleCell` sets: `None` means the property is left untouched. */
  datatype StyleDescriptor = StyleDescriptor(horizontal: Option<HorizontalAlignment>, formatCode: Option<string>)

  /** The concrete policies. `PaddedInteger` carries the longest byte length
      seen by `decorate`; the others are stateless. */
  datatype CellStyle = Text | Integer | Percentage | Amount | PaddedInteger(maxLength: nat)

  const INTEGER_FORMATCODE: string := "#,##0"
  const PERCENTAGE_FORMATCODE: string := "#,##0.000"
  const AMOUNT_FORMATCODE: string := "#,##0.00"

  /** `getDataType()`: only `Text` columns are written as strings; no policy
      ever declares the null type. */
  function GetDataType(s: CellStyle): (d: DataType)
    ensures d != TypeNull
    ensures d == TypeString <==> s.Text?
    ensures d == TypeNumeric <==> !s.Text?
  {
    match s
    case Text => TypeString
    case Integer => TypeNumeric
    case Percentage => TypeNumeric
    case Amount => TypeNumeric
    case PaddedInteger(_) => TypeNumeric
  }

  /** `str_repeat('0', n)`. */
  function Zeros(n: nat): (z: string)
    ensures |z| == n
    ensures forall i :: 0 <= i < n ==> z[i] == '0'
  {
    seq(n, _ => '0')
  }

  /** `styleCell($style)` as a descriptor of what it sets. */
  function StyleCell(s: CellStyle): (d: StyleDescriptor)
    ensures s.Text? ==> d == StyleDescriptor(Some(HorizontalLeft), None)
    ensures s.Integer? ==> d == StyleDescriptor(Some(HorizontalCenter), Some(INTEGER_FORMATCODE))
    ensures s.Percentage? ==> d == StyleDescriptor(None, Some(PERCENTAGE_FORMATCODE))
    ensures s.Amount? ==> d == StyleDescriptor(None, Some(AMOUNT_FORMATCODE))
    ensures s.PaddedInteger? ==>
              d.horizontal == Some(HorizontalCenter) && d.formatCode.Some?
              && |d.formatCode.value| == s.maxLength
              && forall i :: 0 <= i < s.maxLength ==> d.formatCode.value[i] == '0'
  {
    match s
    case Text => StyleDescriptor(Some(HorizontalLeft), None)
    case Integer => StyleDescriptor(Some(HorizontalCenter), Some(INTEGER_FORMATCODE))
    case Percentage => StyleDescriptor(None, Some(PERCENTAGE_FORMATCODE))
    case Amount => StyleDescriptor(None, Some(AMOUNT_FORMATCODE))
    case PaddedInteger(n) => StyleDescriptor(Some(HorizontalCenter), Some(Zeros(n)))
  }

  /** The alignment and number format of a cell range's style. */
  datatype CellFormat = CellFormat(horizontal: HorizontalAlignment, formatCode: string)

  /** The effect of a descriptor on a style: set what it names, keep the rest. */
  function ApplyStyle(f: CellFormat, d: StyleDescriptor): (g: CellFormat)
    ensures d.horizontal.None? ==> g.horizontal == f.horizontal
    ensures d.horizontal.Some? ==> g.horizontal == d.horizontal.value
    ensures d.formatCode.None? ==> g.formatCode == f.formatCode
    ensures d.formatCode.Some? ==> g.formatCode == d.formatCode.value
  {
    CellFormat(d.horizontal.GetOr(f.horizontal), d.formatCode.GetOr(f.formatCode))
  }

  /** Styling a range twice with the same policy is the same as styling it once. */
  lemma StyleCellIdempotent(s: CellStyle, f: CellFormat)
    ensures ApplyStyle(ApplyStyle(f, StyleCell(s)), StyleCell(s)) == ApplyStyle(f, StyleCell(s))
  {
  }

  /** `Text` left-aligns and keeps whatever number format the range had. */
  lemma TextKeepsNumberFormat(f: CellFormat)
    ensures ApplyStyle(f, StyleCell(Text)) == CellFormat(HorizontalLeft, f.formatCode)
  {
  }

  /** `Percentage` and `Amount` set their format code and keep the alignment. */
  lemma PercentageAndAmountKeepAlignment(f: CellFormat)
    ensures ApplyStyle(f, StyleCell(Percentage)) == CellFormat(f.horizontal, PERCENTAGE_FORMATCODE)
    ensures ApplyStyle(f, StyleCell(Amount)) == CellFormat(f.horizontal, AMOUNT_FORMATCODE)
  {
  }

  // ---------------------------------------------------------------------------
  // PaddedInteger::decorate and its maxLength state
  // ---------------------------------------------------------------------------

  /** `PaddedInteger::decorate($content)`: returns the content unchanged and
      widens `maxLength` to the content's byte length; `null` leaves it alone. */
  function Decorate(s: CellStyle, content: Option<string>): (r: (Option<string>, CellStyle))
    requires s.PaddedInteger?
    ensures r.0 == content
    ensures r.1.PaddedInteger?
    ensures content.None? ==> r.1 == s
    ensures content.Some? ==> r.1.maxLength == Max(s.maxLength, PhpStrings.ByteLength(content.value))
  {
    match content
    case None => (content, s)
    case Some(c) => (content, PaddedInteger(Max(s.maxLength, PhpStrings.ByteLength(c))))
  }

  /** Decorating a sequence of values, one `decorate` call after another. */
  function DecorateAll(s: CellStyle, contents: seq<Option<string>>): (r: (seq<Option<string>>, CellStyle))
    requires s.PaddedInteger?
    ensures r.1.PaddedInteger?
    decreases |contents|
  {
    if |contents| == 0 then ([], s)
    else
      var (first, s1) := Decorate(s, contents[0]);
      var (rest, s2) := DecorateAll(s1, contents[1..]);
      ([first] + rest, s2)
  }

  /** The longest byte length among the non-null values (0 if there is none). */
  function LongestByteLength(contents: seq<Option<string>>): (n: nat)
    ensures forall i :: 0 <= i < |contents| && contents[i].Some? ==>
              PhpStrings.ByteLength(contents[i].value) <= n
    ensures n == 0 || exists i :: 0 <= i < |contents| && contents[i].Some? && PhpStrings.ByteLength(contents[i].value) == n
    decreases |contents|
  {
    if |contents| == 0 then 0
    else
      var rest := LongestByteLength(contents[1..]);
      assert forall i :: 1 <= i < |contents| ==> contents[i] == contents[1..][i - 1];
      match contents[0]
      case None => rest
      case Some(c) => Max(PhpStrings.ByteLength(c), rest)
  }

  /** Decorating returns the values unchanged and leaves `maxLength` at the
      larger of its old value and the longest non-null value decorated: it
      never decreases and, from the initial 0, equals the longest value seen. */
  lemma {:induction false} DecorateAllTracksLongest(s: CellStyle, contents: seq<Option<string>>)
    requires s.PaddedInteger?
    ensures DecorateAll(s, contents).0 == contents
    ensures DecorateAll(s, contents).1.maxLength == Max(s.maxLength, LongestByteLength(contents))
    ensures DecorateAll(s, contents).1.maxLength >= s.maxLength
    decreases |contents|
  {
    if |contents| > 0 {
      var (first, s1) := Decorate(s, contents[0]);
      DecorateAllTracksLongest(s1, contents[1..]);
    }
  }

  /** A fresh `PaddedInteger` (maxLength 0) that decorated the given values
      styles its range with as many zeros as the longest of them has bytes. */
  lemma PaddedFormatAfterDecorating(contents: seq<Option<string>>)
    ensures StyleCell(DecorateAll(PaddedInteger(0), contents).1).formatCode
              == Some(Zeros(LongestByteLength(contents)))
  {
    DecorateAllTracksLongest(PaddedInteger(0), contents);
  }
}
