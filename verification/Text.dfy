/** strings.TrimSpace and the facts about it that the parsers rely on. */
module Text {

  /** unicode.IsSpace. */
  predicate IsSpace(ch: char) {
    || ch == ' ' || '\t' <= ch <= '\r' || ch == '\U{0085}' || ch == '\U{00A0}' || ch == '\U{1680}'
    || '\U{2000}' <= ch <= '\U{200A}' || ch == '\U{2028}' || ch == '\U{2029}' || ch == '\U{202F}'
    || ch == '\U{205F}' || ch == '\U{3000}'
  }

  /** The first position at or after `i` that is not a space. */
  function Lead(s: string, i: nat): (k: nat)
    requires i <= |s|
    ensures i <= k <= |s|
    decreases |s| - i
  {
    if i < |s| && IsSpace(s[i]) then Lead(s, i + 1) else i
  }

  /** The end of s[lo..j] without its trailing spaces. */
  function Trail(s: string, lo: nat, j: nat): (k: nat)
    requires lo <= j <= |s|
    ensures lo <= k <= j
    decreases j
  {
    if lo < j && IsSpace(s[j - 1]) then Trail(s, lo, j - 1) else j
  }

  function Trim(s: string): string {
    s[Lead(s, 0)..Trail(s, Lead(s, 0), |s|)]
  }

  lemma {:induction false} LeadSkipsSpaces(s: string, i: nat)
    requires i <= |s|
    ensures forall k :: i <= k < Lead(s, i) ==> IsSpace(s[k])
    ensures Lead(s, i) < |s| ==> !IsSpace(s[Lead(s, i)])
    decreases |s| - i
  {
    if i < |s| && IsSpace(s[i]) {
      LeadSkipsSpaces(s, i + 1);
    }
  }

  lemma {:induction false} TrailSkipsSpaces(s: string, lo: nat, j: nat)
    requires lo <= j <= |s|
    ensures forall k :: Trail(s, lo, j) <= k < j ==> IsSpace(s[k])
    ensures lo < Trail(s, lo, j) ==> !IsSpace(s[Trail(s, lo, j) - 1])
    decreases j
  {
    if lo < j && IsSpace(s[j - 1]) {
      TrailSkipsSpaces(s, lo, j - 1);
    }
  }

  /** Trimming returns the part between the outer spaces. */
  lemma TrimSplits(s: string) returns (lo: nat, hi: nat)
    ensures lo <= hi <= |s| && Trim(s) == s[lo..hi]
    ensures forall k :: 0 <= k < lo || hi <= k < |s| ==> IsSpace(s[k])
    ensures lo < hi ==> !IsSpace(s[lo]) && !IsSpace(s[hi - 1])
  {
    lo := Lead(s, 0);
    hi := Trail(s, lo, |s|);
    LeadSkipsSpaces(s, 0);
    TrailSkipsSpaces(s, lo, |s|);
  }

  predicate Trimmed(s: string) {
    s == [] || (!IsSpace(s[0]) && !IsSpace(s[|s| - 1]))
  }

  /** Padding a trimmed text with spaces and trimming gives it back. */
  lemma TrimPadded(left: string, s: string, right: string)
    requires Trimmed(s)
    requires forall k :: 0 <= k < |left| ==> IsSpace(left[k])
    requires forall k :: 0 <= k < |right| ==> IsSpace(right[k])
    ensures Trim(left + s + right) == s
  {
    var t := left + s + right;
    var lo, hi := TrimSplits(t);
    assert forall k :: 0 <= k < |left| ==> IsSpace(t[k]);
    assert forall k :: |left| + |s| <= k < |t| ==> t[k] == right[k - |left| - |s|];
    if s != [] {
      assert t[|left|] == s[0] && t[|left| + |s| - 1] == s[|s| - 1];
      assert lo == |left| && hi == |left| + |s|;
      assert t[lo..hi] == s;
    }
  }
}
