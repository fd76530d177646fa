/**
 * `insertString`: splice a string into a text field over its current
 * selection, keeping the whitespace at either edge of the selection, and
 * collapse the caret just after the inserted string.
 */
module TextInsert {
  import opened Whitespace

  /** A text field's value and its selection `[selectionStart, selectionEnd)`, in characters. */
  datatype TextField = TextField(value: string, selectionStart: nat, selectionEnd: nat)
  {
    /** A text field always keeps its selection ordered and inside its value. */
    predicate Valid()
    {
      selectionStart <= selectionEnd <= |value|
    }

    function Before(): string
      requires Valid()
    {
      value[..selectionStart]
    }

    function Selection(): string
      requires Valid()
    {
      value[selectionStart..selectionEnd]
    }

    function After(): string
      requires Valid()
    {
      value[selectionEnd..]
    }

    predicate Collapsed()
    {
      selectionStart == selectionEnd
    }
  }

  /** Where each of five joined pieces sits in the join. */
  lemma Slices(a: string, b: string, c: string, d: string, e: string)
    ensures var s := a + b + c + d + e;
            && s[..|a|] == a
            && s[|a|..|a| + |b|] == b
            && s[|a| + |b|..|a| + |b| + |c|] == c
            && s[|a| + |b| + |c|..|s| - |e|] == d
            && s[|s| - |e|..] == e
  {
    var s := a + b + c + d + e;
    assert s == (a + b) + c + (d + e);
  }

  /**
   * The new field: the text before the selection, the selection's leading
   * whitespace, `newString`, the selection's trailing whitespace and the text
   * after the selection, with the caret right after `newString`.
   */
  function InsertString(newString: string, field: TextField): (r: TextField)
    requires field.Valid()
    ensures r.Valid() && r.Collapsed()
    ensures field.selectionStart + |newString| <= r.selectionStart
    ensures r.selectionStart + |field.After()| <= |r.value|
  {
    var selection := field.Selection();
    var leadingSpaces := LeadingWhitespace(selection);
    var trailingSpaces := TrailingWhitespace(selection);
    var before := field.Before();
    var after := field.After();
    var value := before + leadingSpaces + newString + trailingSpaces + after;
    var caret := |before| + |leadingSpaces| + |newString|;
    TextField(value, caret, caret)
  }

  /**
   * The new value is the five pieces in order and the caret follows the
   * inserted string, where `lead` and `trail` are any longest whitespace
   * prefix and suffix of the selection: what `^\s*` and `\s*$` match.
   */
  lemma InsertStringLayout(newString: string, field: TextField, lead: string, trail: string)
    requires field.Valid()
    requires IsLongestWhitespacePrefix(field.Selection(), lead)
    requires IsLongestWhitespaceSuffix(field.Selection(), trail)
    ensures var r := InsertString(newString, field);
            && r.value == field.Before() + lead + newString + trail + field.After()
            && r.selectionStart == r.selectionEnd == field.selectionStart + |lead| + |newString|
  {
    LongestPrefixUnique(field.Selection(), lead);
    LongestSuffixUnique(field.Selection(), trail);
  }

  /** With a collapsed selection there is no whitespace to keep: a plain insertion at the caret. */
  lemma InsertAtCaret(newString: string, field: TextField)
    requires field.Valid() && field.Collapsed()
    ensures var r := InsertString(newString, field);
            && r.value == field.value[..field.selectionStart] + newString + field.value[field.selectionStart..]
            && r.selectionStart == field.selectionStart + |newString|
  {
    var before, after := field.Before(), field.After();
    assert |field.Selection()| == 0;
    assert LeadingWhitespace(field.Selection()) == [];
    assert TrailingWhitespace(field.Selection()) == [];
    InsertStringLayout(newString, field, LeadingWhitespace(field.Selection()), TrailingWhitespace(field.Selection()));
    assert before + [] + newString + [] + after == before + newString + after;
  }

  /**
   * A selection made only of whitespace is both the leading and the trailing
   * run, so it appears on both sides of the inserted string.
   */
  lemma InsertOverWhitespace(newString: string, field: TextField)
    requires field.Valid() && AllWhitespace(field.Selection())
    ensures var r := InsertString(newString, field);
            && r.value == field.Before() + field.Selection() + newString + field.Selection() + field.After()
            && r.selectionStart == field.selectionEnd + |newString|
  {
    AllWhitespaceRuns(field.Selection());
  }

  /** The selection with its leading and trailing whitespace runs removed. */
  function Core(selection: string): string
    requires |LeadingWhitespace(selection)| <= |selection| - |TrailingWhitespace(selection)|
  {
    selection[|LeadingWhitespace(selection)|..|selection| - |TrailingWhitespace(selection)|]
  }

  /** A field's value is the text before, inside and after its selection. */
  lemma Pieces(field: TextField)
    requires field.Valid()
    ensures field.value == field.Before() + field.Selection() + field.After()
  {
  }

  /** Five pieces joined left to right are the same as the inner three joined first. */
  lemma Regroup(p: string, q: string, x: string, y: string, z: string)
    ensures p + q + x + y + z == p + (q + x + y) + z
  {
  }

  /** Moving a piece from the tail group to the head group does not change the join. */
  lemma Shift(p: string, q: string, a: string, b: string, y: string, z: string)
    ensures p + q + a + b + (y + z) == p + q + (a + b) + y + z
  {
  }

  /**
   * When the selection holds a non-whitespace character, the splice replaces
   * exactly its core: inserting the core back restores the original value.
   */
  lemma ReinsertCoreRestores(field: TextField, j: nat)
    requires field.Valid()
    requires j < |field.Selection()| && !IsWhitespace(field.Selection()[j])
    ensures |LeadingWhitespace(field.Selection())| <= |field.Selection()| - |TrailingWhitespace(field.Selection())|
    ensures InsertString(Core(field.Selection()), field).value == field.value
  {
    var before, sel, after := field.Before(), field.Selection(), field.After();
    RunsDisjoint(sel, j);
    var lead, core, trail := LeadingWhitespace(sel), Core(sel), TrailingWhitespace(sel);
    InsertStringLayout(core, field, LeadingWhitespace(field.Selection()), TrailingWhitespace(field.Selection()));
    Regroup(before, lead, core, trail, after);
    Pieces(field);
  }

  /**
   * Inserting `a` and then `b` is inserting `a + b`: after the first splice
   * the selection is collapsed, so the second is a plain insertion at the caret.
   */
  lemma InsertTwice(a: string, b: string, field: TextField)
    requires field.Valid()
    ensures InsertString(b, InsertString(a, field)) == InsertString(a + b, field)
  {
    var before, after := field.Before(), field.After();
    var lead := LeadingWhitespace(field.Selection());
    var trail := TrailingWhitespace(field.Selection());
    var head := before + lead + a;
    var tail := trail + after;
    CaretSplits(a, field);
    InsertIntoJoin(head, tail, b);
    InsertStringLayout(a + b, field, LeadingWhitespace(field.Selection()), TrailingWhitespace(field.Selection()));
    Shift(before, lead, a, b, trail, after);
  }

  /** After an insertion the value is what lies before the caret followed by what lies after it. */
  lemma CaretSplits(a: string, field: TextField)
    requires field.Valid()
    ensures var head := field.Before() + LeadingWhitespace(field.Selection()) + a;
            var tail := TrailingWhitespace(field.Selection()) + field.After();
            InsertString(a, field) == TextField(head + tail, |head|, |head|)
  {
    var lead := LeadingWhitespace(field.Selection());
    var trail := TrailingWhitespace(field.Selection());
    InsertStringLayout(a, field, LeadingWhitespace(field.Selection()), TrailingWhitespace(field.Selection()));
    Tail(field.Before(), lead, a, trail, field.After());
  }

  /** Joining five pieces is joining the first three to the last two. */
  lemma Tail(p: string, q: string, x: string, y: string, z: string)
    ensures p + q + x + y + z == (p + q + x) + (y + z)
  {
  }

  /** A caret between `head` and `tail` takes a plain insertion there. */
  lemma InsertIntoJoin(head: string, tail: string, b: string)
    ensures InsertString(b, TextField(head + tail, |head|, |head|))
            == TextField(head + b + tail, |head| + |b|, |head| + |b|)
  {
    var f := TextField(head + tail, |head|, |head|);
    InsertAtCaret(b, f);
    assert f.value[..|head|] == head;
    assert f.value[|head|..] == tail;
  }

  /**
   * The text outside the selection is untouched: what precedes the selection
   * keeps its place, what follows it is only shifted. The inserted string
   * ends at the caret.
   */
  lemma InsertKeepsOutside(newString: string, field: TextField)
    requires field.Valid()
    ensures var r := InsertString(newString, field);
            && (forall k :: 0 <= k < field.selectionStart ==> r.value[k] == field.value[k])
            && (forall k :: field.selectionEnd <= k < |field.value| ==>
                  r.value[k + |r.value| - |field.value|] == field.value[k])
            && (forall k :: 0 <= k < |newString| ==>
                  r.value[r.selectionStart - |newString| + k] == newString[k])
  {
    InsertStringLayout(newString, field, LeadingWhitespace(field.Selection()), TrailingWhitespace(field.Selection()));
  }

  /**
   * Between the untouched prefix and the inserted string sits the selection's
   * longest leading whitespace run; between the inserted string and the
   * untouched suffix sits its longest trailing whitespace run.
   */
  lemma InsertKeepsSelectionEdges(newString: string, field: TextField)
    requires field.Valid()
    ensures var r := InsertString(newString, field);
            && r.value[field.selectionStart..r.selectionStart - |newString|] == LeadingWhitespace(field.Selection())
            && r.value[r.selectionStart..|r.value| - |field.After()|] == TrailingWhitespace(field.Selection())
  {
    var sel := field.Selection();
    InsertStringLayout(newString, field, LeadingWhitespace(field.Selection()), TrailingWhitespace(field.Selection()));
    Slices(field.Before(), LeadingWhitespace(sel), newString, TrailingWhitespace(sel), field.After());
  }
}
