/**
 * `PopoverViewController`: the two text slots of the popover (the original
 * text and its translation) and `setContent`, which splits one string at the
 * separator line "---" surrounded by blank lines.
 */
module Popover {
  import opened Wrappers

  const Separator: string := "\n\n---\n\n"

  // ---------------------------------------------------------------------
  // Finding the separator
  // ---------------------------------------------------------------------

  predicate OccursAt(s: string, i: nat) {
    i + |Separator| <= |s| && s[i..i + |Separator|] == Separator
  }

  predicate Contains(s: string) {
    exists i: nat :: i <= |s| && OccursAt(s, i)
  }

  /** The leftmost occurrence of the separator at or after `from`. */
  function IndexFrom(s: string, from: nat): (r: Option<nat>)
    requires from <= |s|
    ensures r.Some? ==> from <= r.value && OccursAt(s, r.value)
    ensures r.Some? ==> forall j: nat :: from <= j < r.value ==> !OccursAt(s, j)
    ensures r.None? ==> forall j: nat :: from <= j ==> !OccursAt(s, j)
    decreases |s| - from
  {
    if from + |Separator| > |s| then None
    else if s[from..from + |Separator|] == Separator then Some(from)
    else IndexFrom(s, from + 1)
  }

  // ---------------------------------------------------------------------
  // components(separatedBy:)
  // ---------------------------------------------------------------------

  /** The pieces between the separators, joined back. */
  function Join(parts: seq<string>): string
    requires |parts| >= 1
  {
    if |parts| == 1 then parts[0] else parts[0] + Separator + Join(parts[1..])
  }

  /**
   * `components(separatedBy:)`: the text before the leftmost separator, then
   * the components of the rest. Joining them back gives the string, no
   * component contains the separator, and there are at least two exactly
   * when the string contains it.
   */
  function Components(s: string): (parts: seq<string>)
    ensures |parts| >= 1 && Join(parts) == s
    ensures forall k :: 0 <= k < |parts| ==> !Contains(parts[k])
    ensures |parts| >= 2 <==> Contains(s)
    decreases |s|
  {
    match IndexFrom(s, 0)
    case None => [s]
    case Some(i) =>
      var head := s[..i];
      var rest := Components(s[i + |Separator|..]);
      assert !Contains(head) by {
        forall j: nat | j + |Separator| <= |head| ensures !OccursAt(head, j) {
          assert !OccursAt(s, j);
          assert head[j..j + |Separator|] == s[j..j + |Separator|];
        }
      }
      assert s == head + Separator + s[i + |Separator|..];
      [head] + rest
  }

  /**
   * What `setContent` shows: the first two components when there is a
   * separator, else the whole content and an empty translation. The
   * original is the text before the leftmost separator; the translation
   * runs from just after it to the next separator, or to the end.
   */
  function SplitContent(content: string): (r: (string, string))
    ensures !Contains(content) ==> r == (content, "")
    ensures Contains(content) ==>
      && IndexFrom(content, 0) == Some(|r.0|)
      && content[..|r.0|] == r.0
      && var rest := content[|r.0| + |Separator|..];
         r.1 == match IndexFrom(rest, 0) case None => rest case Some(j) => rest[..j]
  {
    var parts := Components(content);
    if |parts| >= 2 then
      FirstComponent(content[IndexFrom(content, 0).value + |Separator|..]);
      (parts[0], parts[1])
    else (content, "")
  }

  /** The first component is the text before the leftmost separator, or everything. */
  lemma FirstComponent(s: string)
    ensures Components(s)[0] == match IndexFrom(s, 0) case None => s case Some(j) => s[..j]
  {
  }

  // ---------------------------------------------------------------------
  // Round trip
  // ---------------------------------------------------------------------

  /** A window that fits inside a prefix holds the separator in the prefix exactly when in the whole string. */
  lemma WindowInPrefix(s: string, p: string, j: nat)
    requires |p| <= |s| && s[..|p|] == p && j + |Separator| <= |p|
    ensures OccursAt(s, j) <==> OccursAt(p, j)
  {
    assert forall k :: j <= k < |p| ==> s[k] == p[k];
    assert s[j..j + |Separator|] == p[j..j + |Separator|];
  }

  /**
   * Splitting `a + separator + b`, where `b` holds no separator, gives back
   * `(a, b)` exactly when no separator starts inside `a`: that is, when
   * `a` followed by the separator without its last character holds none.
   * A separator can start inside `a` even when `a` holds none itself.
   */
  lemma SplitRoundTrip(a: string, b: string)
    requires !Contains(b)
    ensures SplitContent(a + Separator + b) == (a, b) <==> !Contains(a + Separator[..|Separator| - 1])
  {
    var s := a + Separator + b;
    var a' := a + Separator[..|Separator| - 1];
    assert OccursAt(s, |a|) by { assert s[|a|..|a| + |Separator|] == Separator; }
    assert s[..|a'|] == a';
    if !Contains(a') {
      forall j: nat | j < |a| ensures !OccursAt(s, j) {
        WindowInPrefix(s, a', j);
      }
      assert IndexFrom(s, 0) == Some(|a|);
      assert s[|a| + |Separator|..] == b;
    } else {
      var j: nat :| j <= |a'| && OccursAt(a', j);
      WindowInPrefix(s, a', j);
      assert |SplitContent(s).0| <= j < |a|;
    }
  }

  /** A sufficient condition: `a` holds no separator and does not end in a newline or a dash. */
  lemma SplitRoundTripPlain(a: string, b: string)
    requires !Contains(a) && !Contains(b)
    requires |a| > 0 ==> a[|a| - 1] != '\n' && a[|a| - 1] != '-'
    ensures SplitContent(a + Separator + b) == (a, b)
  {
    var a' := a + Separator[..|Separator| - 1];
    forall j: nat | j + |Separator| <= |a'| ensures !OccursAt(a', j) {
      if j + |Separator| <= |a| {
        assert !OccursAt(a, j);
        assert a[j..j + |Separator|] == a'[j..j + |Separator|];
      } else {
        // The window straddles the end of `a`: it holds a's last character,
        // which is neither a newline nor a dash, as every separator character is.
        var k := |a| - 1 - j;
        assert 0 <= k < |Separator|;
        assert a'[j..j + |Separator|][k] == a[|a| - 1];
        assert Separator[k] == '\n' || Separator[k] == '-';
        assert a'[j..j + |Separator|][k] != Separator[k];
      }
    }
    SplitRoundTrip(a, b);
  }

  /**
   * The round trip fails for some `a` and `b` that hold no separator: with
   * `a` = "\n\n---" and `b` = "x", the leftmost separator starts at 0.
   */
  lemma SplitRoundTripCounterexample()
    ensures !Contains("\n\n---") && !Contains("x")
    ensures SplitContent("\n\n---" + Separator + "x") == ("", "---\n\nx")
  {
    assert !OccursAt("x", 0);
    var s := "\n\n---" + Separator + "x";
    assert OccursAt(s, 0) by { assert s[..7] == Separator; }
    assert IndexFrom(s, 0) == Some(0);
    var rest := s[|Separator|..];
    assert rest == "---\n\nx";
    assert IndexFrom(rest, 0) == None;
  }

  // ---------------------------------------------------------------------
  // The two text slots
  // ---------------------------------------------------------------------

  class PopoverContent {
    var original: string
    var translated: string

    constructor ()
      ensures original == "" && translated == ""
    {
      original := "";
      translated := "";
    }

    /** `setOriginalText`: only the original slot changes. */
    method SetOriginalText(text: string)
      modifies this
      ensures original == text && translated == old(translated)
    {
      original := text;
    }

    /** `setTranslatedText`: only the translated slot changes. */
    method SetTranslatedText(text: string)
      modifies this
      ensures translated == text && original == old(original)
    {
      translated := text;
    }

    /** `setContent`: both slots are replaced by the split of `content`. */
    method SetContent(content: string)
      modifies this
      ensures (original, translated) == SplitContent(content)
      ensures !Contains(original) && !Contains(translated)
    {
      var components := Components(content);
      if |components| >= 2 {
        SetOriginalText(components[0]);
        SetTranslatedText(components[1]);
      } else {
        SetOriginalText(content);
        SetTranslatedText("");
      }
    }

    /** `clearContent`: both slots are emptied. */
    method ClearContent()
      modifies this
      ensures original == "" && translated == ""
    {
      original := "";
      translated := "";
    }
  }
}
