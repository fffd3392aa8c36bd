/** Searching a workflow run's text for a version tag (internal/deploy/images/wait_actions.go).
    The search must not take v1.2.3 for v1.2.30, so a match followed by a digit is rejected
    and the search goes on behind it. */
module TagToken {
  import opened GoStrings

  predicate IsDigit(c: char) {
    '0' <= c <= '9'
  }

  /** tag occurs at `at` as a whole version: at the end of blob or with no digit after it. */
  predicate FreeAt(blob: string, tag: string, at: int) {
    OccursAt(blob, tag, at) && (at + |tag| == |blob| || !IsDigit(blob[at + |tag|]))
  }

  ghost predicate HasFree(blob: string, tag: string) {
    exists at :: FreeAt(blob, tag, at)
  }

  /** A border of tag (a proper prefix that is also a suffix) with a digit after the prefix.
      Two matches of tag can overlap in it so that the first is followed by that digit. */
  predicate DigitBorder(tag: string, k: int) {
    0 < k < |tag| && tag[..k] == tag[|tag| - k..] && IsDigit(tag[k])
  }

  predicate Searchable(tag: string) {
    forall k | 0 < k < |tag| :: !DigitBorder(tag, k)
  }

  /** What the search answers from offset on: the leftmost match decides or is skipped whole. */
  function Scan(blob: string, tag: string, offset: nat): (found: bool)
    requires tag != "" && offset <= |blob|
    decreases |blob| - offset
  {
    var j := IndexFrom(blob, tag, offset);
    j >= 0 && (FreeAt(blob, tag, j) || Scan(blob, tag, j + |tag|))
  }

  function Contains(blob: string, tag: string): bool {
    tag != "" && Scan(blob, tag, 0)
  }

  /** containsTagToken. */
  method ContainsTagToken(blob: string, tagLower: string) returns (found: bool)
    ensures found == Contains(blob, tagLower)
    ensures found ==> HasFree(blob, tagLower)
    ensures !found && tagLower != "" && Searchable(tagLower) ==> !HasFree(blob, tagLower)
  {
    if tagLower == "" {
      return false;
    }
    found := Search(blob, tagLower);
    ScanDecides(blob, tagLower);
  }

  /** The loop of containsTagToken. */
  method Search(blob: string, tagLower: string) returns (found: bool)
    requires tagLower != ""
    ensures found == Scan(blob, tagLower, 0)
  {
    var offset := 0;
    while true
      invariant offset <= |blob|
      invariant Scan(blob, tagLower, 0) == Scan(blob, tagLower, offset)
      decreases |blob| - offset
    {
      var j := Index(blob[offset..], tagLower);
      ScanStep(blob, tagLower, offset);
      if j < 0 {
        return false;
      }
      j := j + offset;
      var end := j + |tagLower|;
      if end >= |blob| || !IsDigit(blob[end]) {
        return true;
      }
      offset := end;
    }
  }

  /** A tag with one more character behind it is found unless that is a digit: v1.2.3 is in v1.2.3-rc
      and not in v1.2.30. */
  lemma NextDigitDecides(tag: string, c: char)
    requires |tag| > 1
    ensures Contains(tag + [c], tag) <==> c !in "0123456789"
  {
    var blob := tag + [c];
    assert OccursAt(blob, tag, 0);
    assert IndexFrom(blob, tag, 0) == 0;
    assert forall j | |tag| <= j :: !OccursAt(blob, tag, j);
    assert !Scan(blob, tag, |tag|);
    assert IsDigit(c) <==> c in "0123456789";
  }

  /** One pass of the loop, in the terms of Scan. */
  lemma ScanStep(blob: string, tag: string, offset: nat)
    requires tag != "" && offset <= |blob|
    ensures var i := Index(blob[offset..], tag); var end := i + offset + |tag|;
      if i < 0 then !Scan(blob, tag, offset)
      else if end >= |blob| || !IsDigit(blob[end]) then end <= |blob| && Scan(blob, tag, offset)
      else Scan(blob, tag, offset) == Scan(blob, tag, end)
  {
    SearchBehind(blob, tag, offset);
  }

  lemma OccursBehind(blob: string, tag: string, offset: nat, i: nat)
    requires offset <= |blob|
    ensures OccursAt(blob[offset..], tag, i) <==> OccursAt(blob, tag, i + offset)
  {
    if i + offset + |tag| <= |blob| {
      assert blob[offset..][i..i + |tag|] == blob[i + offset..i + offset + |tag|];
    }
  }

  /** Searching a suffix of blob is searching blob from there. */
  lemma SearchBehind(blob: string, tag: string, offset: nat)
    requires offset <= |blob|
    ensures var i := Index(blob[offset..], tag);
            IndexFrom(blob, tag, offset) == if i < 0 then -1 else i + offset
  {
    var i, j := Index(blob[offset..], tag), IndexFrom(blob, tag, offset);
    if i >= 0 {
      OccursBehind(blob, tag, offset, i);
    }
    if j >= 0 {
      OccursBehind(blob, tag, offset, j - offset);
    }
  }

  /** Both directions of the search's promise, for a tag it can search for. */
  lemma ScanDecides(blob: string, tag: string)
    requires tag != ""
    ensures Contains(blob, tag) ==> HasFree(blob, tag)
    ensures Searchable(tag) && HasFree(blob, tag) ==> Contains(blob, tag)
  {
    ScanSound(blob, tag, 0);
    if Searchable(tag) && HasFree(blob, tag) {
      var at :| FreeAt(blob, tag, at);
      ScanComplete(blob, tag, 0, at);
    }
  }

  lemma {:induction false} ScanSound(blob: string, tag: string, offset: nat)
    requires tag != "" && offset <= |blob|
    ensures Scan(blob, tag, offset) ==> HasFree(blob, tag)
    decreases |blob| - offset
  {
    var j := IndexFrom(blob, tag, offset);
    if j >= 0 && !FreeAt(blob, tag, j) {
      ScanSound(blob, tag, j + |tag|);
    }
  }

  /** A free match at or behind offset is found: a rejected match that overlapped it
      would make the overlap a digit border. */
  lemma {:induction false} ScanComplete(blob: string, tag: string, offset: nat, at: int)
    requires tag != "" && offset <= |blob| && Searchable(tag)
    requires offset <= at && FreeAt(blob, tag, at)
    ensures Scan(blob, tag, offset)
    decreases |blob| - offset
  {
    var j := IndexFrom(blob, tag, offset);
    assert j <= at;
    if !FreeAt(blob, tag, j) {
      if at < j + |tag| {
        RejectedOverlap(blob, tag, j, at);
        assert false;
      }
      ScanComplete(blob, tag, j + |tag|, at);
    }
  }

  lemma RejectedOverlap(blob: string, tag: string, j: int, at: int)
    requires OccursAt(blob, tag, j) && !FreeAt(blob, tag, j) && OccursAt(blob, tag, at)
    requires j < at < j + |tag|
    ensures DigitBorder(tag, j + |tag| - at)
  {
    var k := j + |tag| - at;
    var first, second := blob[j..j + |tag|], blob[at..at + |tag|];
    assert forall i | 0 <= i < k :: second[i] == blob[at + i] == first[|tag| - k + i];
    assert tag[k] == second[k] == blob[j + |tag|];
  }

  /** The exact condition: the search agrees with its promise on every text if and only if
      no border of the tag is followed by a digit. "v1.2.3" has no border at all; for "11"
      the text "111" ends in a match the search steps over. */
  lemma SearchIsExactIffNoDigitBorder(tag: string)
    requires tag != ""
    ensures Searchable(tag) <==> forall blob :: Contains(blob, tag) <==> HasFree(blob, tag)
  {
    forall blob {
      ScanDecides(blob, tag);
    }
    if k :| 0 < k < |tag| && DigitBorder(tag, k) {
      OverlapIsMissed(tag, k);
    }
  }

  lemma OverlapIsMissed(tag: string, k: int)
    requires DigitBorder(tag, k)
    ensures HasFree(tag + tag[k..], tag) && !Contains(tag + tag[k..], tag)
  {
    var n := |tag|;
    var blob := tag + tag[k..];
    assert blob[n - k..] == tag[n - k..] + tag[k..] == tag[..k] + tag[k..] == tag;
    assert FreeAt(blob, tag, n - k);
    assert OccursAt(blob, tag, 0);
    assert IndexFrom(blob, tag, 0) == 0;
    assert blob[n] == tag[k..][0];
    assert IndexFrom(blob, tag, n) < 0;
    assert !FreeAt(blob, tag, 0);
    assert !Scan(blob, tag, n);
  }
}
