/** Captured process output: secret scanning and the HTTP status trailer. */
module CapturedOutput {
  import opened Prelude

  type Byte = x: nat | x < 256
  type Bytes = seq<Byte>

  datatype Output = Output(success: bool, stdout: Bytes, stderr: Bytes)

  /** The needle is the contiguous run of the haystack that starts at `i`. */
  ghost predicate OccursAt(haystack: Bytes, needle: Bytes, i: nat) {
    i + |needle| <= |haystack| && haystack[i..i + |needle|] == needle
  }

  ghost predicate Occurs(haystack: Bytes, needle: Bytes) {
    exists i :: OccursAt(haystack, needle, i)
  }

  method ContainsBytes(haystack: Bytes, needle: Bytes) returns (found: bool)
    ensures found <==> needle != [] && Occurs(haystack, needle)
  {
    if needle == [] {
      return false;
    }
    var i := 0;
    while i + |needle| <= |haystack|
      invariant forall k :: 0 <= k < i ==> !OccursAt(haystack, needle, k)
    {
      if haystack[i..i + |needle|] == needle {
        assert OccursAt(haystack, needle, i);
        return true;
      }
      i := i + 1;
    }
    return false;
  }

  /** The position of the last occurrence of a non-empty needle (`rposition` over windows). */
  method LastOccurrence(haystack: Bytes, needle: Bytes) returns (at: Option<nat>)
    requires needle != []
    ensures at.None? ==> !Occurs(haystack, needle)
    ensures at.Some? ==> IsLastOccurrence(haystack, needle, at.value)
  {
    var i := |haystack| - |needle|;
    while i >= 0
      invariant i <= |haystack| - |needle|
      invariant forall k :: i < k && 0 <= k ==> !OccursAt(haystack, needle, k)
      decreases i
    {
      if haystack[i..i + |needle|] == needle {
        return Some(i);
      }
      i := i - 1;
    }
    return None;
  }

  ghost predicate IsLastOccurrence(haystack: Bytes, needle: Bytes, at: nat) {
    OccursAt(haystack, needle, at) && forall k :: at < k ==> !OccursAt(haystack, needle, k)
  }

  // ----- the status trailer

  const NEWLINE: Byte := 10

  /** "\nTYRION_HTTP_STATUS:" */
  const MARKER: Bytes := [10, 84, 89, 82, 73, 79, 78, 95, 72, 84, 84, 80, 95, 83, 84, 65, 84, 85, 83, 58]

  /** Decoding, trimming and parsing the text after the marker as a u16. */
  type StatusReader = Bytes -> Option<nat>

  /** The status read after the last marker. */
  method HttpStatus(stdout: Bytes, read: StatusReader) returns (status: Option<nat>)
    ensures status.Some? ==> exists at: nat :: IsLastOccurrence(stdout, MARKER, at) && status == read(stdout[at + |MARKER|..])
    ensures forall at: nat :: IsLastOccurrence(stdout, MARKER, at) ==> status == read(stdout[at + |MARKER|..])
  {
    var at := LastOccurrence(stdout, MARKER);
    if at.None? {
      assert forall i: nat :: OccursAt(stdout, MARKER, i) ==> Occurs(stdout, MARKER);
      return None;
    }
    status := read(stdout[at.value + |MARKER|..]);
    forall other: nat | IsLastOccurrence(stdout, MARKER, other) ensures other == at.value {
      LastOccurrenceIsUnique(stdout, MARKER, other, at.value);
    }
  }

  lemma LastOccurrenceIsUnique(haystack: Bytes, needle: Bytes, a: nat, b: nat)
    requires IsLastOccurrence(haystack, needle, a) && IsLastOccurrence(haystack, needle, b)
    ensures a == b
  {
  }

  /** The marker's bytes spell the text that curl is told to write. */
  lemma MarkerSpells(i: nat)
    requires i < |MARKER|
    ensures |MARKER| == |"\nTYRION_HTTP_STATUS:"| && MARKER[i] == "\nTYRION_HTTP_STATUS:"[i] as int
  {
  }

  /** The marker starts with a newline and has no other. */
  lemma MarkerHasOneNewline(i: nat)
    requires i < |MARKER|
    ensures MARKER[i] == NEWLINE <==> i == 0
  {
  }

  /** Whatever the response body contains, even markers of its own, the status is
      the one the trailer carries, because a trailer has no newline. */
  lemma TrailerDecidesStatus(body: Bytes, trailer: Bytes)
    requires NEWLINE !in trailer
    ensures IsLastOccurrence(body + (MARKER + trailer), MARKER, |body|)
    ensures (body + (MARKER + trailer))[|body| + |MARKER|..] == trailer
  {
    var stdout := body + (MARKER + trailer);
    assert stdout[|body|..|body| + |MARKER|] == MARKER;
    forall k | |body| < k ensures !OccursAt(stdout, MARKER, k) {
      if k + |MARKER| <= |stdout| {
        var window := stdout[k..k + |MARKER|];
        assert window[0] == stdout[k];
        if k < |body| + |MARKER| {
          MarkerHasOneNewline(k - |body|);
          assert stdout[k] == MARKER[k - |body|];
        } else {
          assert stdout[k] == trailer[k - |body| - |MARKER|];
        }
        assert window[0] != MARKER[0];
      }
    }
  }
}
