/** ToolbarTitleBehavior.kt: how the toolbar lays out a long title, and the
    decoding of the `titleBehavior` XML attribute. */
module ToolbarTitle {
  import opened Wrappers
  import opened Jvm

  /** `android.text.TextUtils.TruncateAt`. */
  datatype TruncateAt = Start | Middle | End | Marquee

  /** The entries, in declaration order. */
  datatype ToolbarTitleBehavior =
    | SingleLineEllipsis
    | SingleLineScrollable
    | MultiLineEllipsis
    | MultiLineWrap
  {
    function IsSingleLine(): bool {
      this == SingleLineEllipsis || this == SingleLineScrollable
    }

    function MaxLines(): Int32 {
      match this
      case SingleLineEllipsis => 1
      case SingleLineScrollable => 1
      case MultiLineEllipsis => 2
      case MultiLineWrap => INT_MAX
    }

    function Ellipsize(): Option<TruncateAt> {
      match this
      case SingleLineEllipsis => Some(End)
      case SingleLineScrollable => Some(Marquee)
      case MultiLineEllipsis => Some(End)
      case MultiLineWrap => None
    }

    /** The entry's `ordinal`: its position in `ENTRIES`. */
    function Ordinal(): (n: nat)
      ensures n < |ENTRIES| && ENTRIES[n] == this
    {
      match this
      case SingleLineEllipsis => 0
      case SingleLineScrollable => 1
      case MultiLineEllipsis => 2
      case MultiLineWrap => 3
    }
  }

  /** `ToolbarTitleBehavior.values()`. */
  const ENTRIES: seq<ToolbarTitleBehavior> :=
    [SingleLineEllipsis, SingleLineScrollable, MultiLineEllipsis, MultiLineWrap]

  /** `fromXmlValue(value)`: the entry whose ordinal is `value`, and
      MULTI_LINE_WRAP for any other number. */
  function FromXmlValue(value: Int32): (b: ToolbarTitleBehavior)
    ensures 0 <= value < |ENTRIES| ==> b == ENTRIES[value] && b.Ordinal() == value
    ensures !(0 <= value < |ENTRIES|) ==> b == MultiLineWrap
  {
    match value
    case 0 => SingleLineEllipsis
    case 1 => SingleLineScrollable
    case 2 => MultiLineEllipsis
    case 3 => MultiLineWrap
    case _ => MultiLineWrap
  }

  /** Decoding an entry's ordinal gives the entry back, so distinct entries
      have distinct ordinals. */
  lemma FromXmlValueInvertsOrdinal(a: ToolbarTitleBehavior, b: ToolbarTitleBehavior)
    ensures FromXmlValue(a.Ordinal()) == a
    ensures a.Ordinal() == b.Ordinal() <==> a == b
  {
  }

  /** The layout settings the entries promise: single-line exactly when at
      most one line; a marquee only for SINGLE_LINE_SCROLLABLE; no
      truncation only for MULTI_LINE_WRAP, which allows as many lines as an
      `Int` can count. */
  lemma EntrySettings(b: ToolbarTitleBehavior)
    ensures b.IsSingleLine() <==> b.MaxLines() == 1
    ensures b.Ellipsize() == Some(Marquee) <==> b == SingleLineScrollable
    ensures b.Ellipsize() == None <==> b == MultiLineWrap
    ensures b == MultiLineWrap ==> b.MaxLines() == INT_MAX
    ensures b == MultiLineEllipsis ==> b.MaxLines() == 2
    ensures b.MaxLines() >= 1
  {
  }
}
