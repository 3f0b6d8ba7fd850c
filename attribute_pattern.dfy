/**
 * The pattern `(\S*)\[(\d+)\]` that `extractAttribute` tests an attribute
 * identifier against, with the first match PCRE reports.
 *
 * `IsMatch` and `IsFirstMatch` say declaratively what a match is and which one
 * comes first; `Search`, `MatchAt`, `Backtrack` and `BracketedIndexAt` find it
 * the way a backtracking matcher does (leftmost start first; at a start, the
 * longest name first, giving back one character at a time), and their
 * contracts tie each step to the declarative definition.
 */
module AttributePattern {
  import opened Wrappers
  import opened Ascii

  /** `(\S*)` can match s[p..q]. */
  predicate IsName(s: string, p: nat, q: nat) {
    p <= q <= |s| && forall k :: p <= k < q ==> !IsSpace(s[k])
  }

  /** `\[(\d+)\]` can match s[q..d + 1]; the digits are s[q + 1..d]. */
  predicate IsBracketedIndex(s: string, q: nat, d: nat) {
    q + 1 < d < |s| && s[q] == '[' && (forall k :: q < k < d ==> IsDigit(s[k])) && s[d] == ']'
  }

  /** The whole pattern matches s[p..d + 1] with the name s[p..q] and the index s[q + 1..d]. */
  predicate IsMatch(s: string, p: nat, q: nat, d: nat) {
    IsName(s, p, q) && IsBracketedIndex(s, q, d)
  }

  ghost predicate HasMatch(s: string) {
    exists p: nat, q: nat, d: nat :: IsMatch(s, p, q, d)
  }

  /** The match reported first: no match starts further left, and none at p has a longer name. */
  ghost predicate IsFirstMatch(s: string, p: nat, q: nat, d: nat) {
    && IsMatch(s, p, q, d)
    && (forall p': nat, q': nat, d': nat :: p' < p ==> !IsMatch(s, p', q', d'))
    && (forall q': nat, d': nat :: q < q' ==> !IsMatch(s, p, q', d'))
  }

  /** How far `\S*` first reaches from i: the end of the run of non-whitespace. */
  function NameEnd(s: string, i: nat): (e: nat)
    requires i <= |s|
    ensures IsName(s, i, e) && (e == |s| || IsSpace(s[e]))
    decreases |s| - i
  {
    if i == |s| || IsSpace(s[i]) then i else NameEnd(s, i + 1)
  }

  /** How far `\d+` reaches from i: the end of the run of digits. */
  function DigitsEnd(s: string, i: nat): (e: nat)
    requires i <= |s|
    ensures i <= e <= |s| && (forall k :: i <= k < e ==> IsDigit(s[k]))
    ensures e == |s| || !IsDigit(s[e])
    decreases |s| - i
  {
    if i == |s| || !IsDigit(s[i]) then i else DigitsEnd(s, i + 1)
  }

  /**
   * `\[(\d+)\]` tried at q: the position of the closing bracket. The digits
   * are taken greedily; a shorter run would be followed by a digit, never by
   * ']', so giving digits back cannot help.
   */
  function BracketedIndexAt(s: string, q: nat): (r: Option<nat>)
    requires q <= |s|
    ensures r.Some? ==> IsBracketedIndex(s, q, r.value)
    ensures r.None? ==> forall d: nat :: !IsBracketedIndex(s, q, d)
  {
    if q < |s| && s[q] == '[' then
      var d := DigitsEnd(s, q + 1);
      if q + 1 < d < |s| && s[d] == ']' then Some(d) else None
    else
      None
  }

  /** The matcher at start p with the name ending at hi, then at hi - 1, ..., down to p. */
  function Backtrack(s: string, p: nat, hi: nat): (r: Option<(nat, nat)>)
    requires IsName(s, p, hi)
    ensures r.Some? ==> p <= r.value.0 <= hi && IsMatch(s, p, r.value.0, r.value.1)
    ensures r.Some? ==> forall q: nat, d: nat :: r.value.0 < q <= hi ==> !IsMatch(s, p, q, d)
    ensures r.None? ==> forall q: nat, d: nat :: q <= hi ==> !IsMatch(s, p, q, d)
    decreases hi - p
  {
    match BracketedIndexAt(s, hi)
    case Some(d) => Some((hi, d))
    case None => if hi == p then None else Backtrack(s, p, hi - 1)
  }

  /** The matcher at start p: the longest name followed by a bracketed index. */
  function MatchAt(s: string, p: nat): (r: Option<(nat, nat)>)
    requires p <= |s|
    ensures r.Some? ==> IsMatch(s, p, r.value.0, r.value.1)
    ensures r.Some? ==> forall q: nat, d: nat :: r.value.0 < q ==> !IsMatch(s, p, q, d)
    ensures r.None? ==> forall q: nat, d: nat :: !IsMatch(s, p, q, d)
  {
    Backtrack(s, p, NameEnd(s, p))
  }

  /** The matcher tried at each start from `from` rightwards; the first start that matches wins. */
  function Search(s: string, from: nat): (r: Option<(nat, nat, nat)>)
    requires from <= |s|
    ensures r.Some? ==> from <= r.value.0 && IsMatch(s, r.value.0, r.value.1, r.value.2)
    ensures r.Some? ==> forall p: nat, q: nat, d: nat :: from <= p < r.value.0 ==> !IsMatch(s, p, q, d)
    ensures r.Some? ==> forall q: nat, d: nat :: r.value.1 < q ==> !IsMatch(s, r.value.0, q, d)
    ensures r.None? ==> forall p: nat, q: nat, d: nat :: from <= p ==> !IsMatch(s, p, q, d)
    decreases |s| - from
  {
    match MatchAt(s, from)
    case Some((q, d)) => Some((from, q, d))
    case None => if from == |s| then None else Search(s, from + 1)
  }

  /**
   * `preg_match_all('/(\S*)\[(\d+)\]/', $s, $matches)` reduced to what the
   * caller uses: whether there is a match, and the two groups of the first one
   * (`$matches[1][0]` and `$matches[2][0]`).
   */
  function Parse(s: string): (r: Option<(string, string)>)
    ensures r.None? <==> !HasMatch(s)
    ensures r.Some? ==> exists p: nat, q: nat, d: nat :: IsFirstMatch(s, p, q, d) && r.value == (s[p..q], s[q + 1..d])
  {
    match Search(s, 0)
    case None => None
    case Some((p, q, d)) =>
      assert IsFirstMatch(s, p, q, d);
      Some((s[p..q], s[q + 1..d]))
  }

  /** t appears in s at position p. */
  predicate OccursAt(s: string, t: string, p: nat) {
    p + |t| <= |s| && s[p..p + |t|] == t
  }

  /** The first match is unique. */
  lemma FirstMatchUnique(s: string, p: nat, q: nat, d: nat, p': nat, q': nat, d': nat)
    requires IsFirstMatch(s, p, q, d) && IsFirstMatch(s, p', q', d')
    ensures p == p' && q == q' && d == d'
  {
  }

  /** When the pattern matches, a first match exists. */
  lemma FirstMatchExists(s: string)
    requires HasMatch(s)
    ensures exists p: nat, q: nat, d: nat :: IsFirstMatch(s, p, q, d)
  {
    var r := Search(s, 0);
    assert IsFirstMatch(s, r.value.0, r.value.1, r.value.2);
  }

  /** Parse returns the name and the index of the first match. */
  lemma ParseFirstMatch(s: string, p: nat, q: nat, d: nat)
    requires IsFirstMatch(s, p, q, d)
    ensures Parse(s) == Some((s[p..q], s[q + 1..d]))
  {
    var r := Search(s, 0);
    FirstMatchUnique(s, p, q, d, r.value.0, r.value.1, r.value.2);
  }

  /**
   * What the two groups hold: a name without whitespace and a non-empty run of
   * digits, found in s as `name[index]`.
   */
  lemma ParseGroups(s: string, name: string, index: string)
    requires Parse(s) == Some((name, index))
    ensures forall k :: 0 <= k < |name| ==> !IsSpace(name[k])
    ensures |index| > 0 && IsDigits(index)
    ensures exists p: nat :: OccursAt(s, name + "[" + index + "]", p)
  {
    var r := Search(s, 0);
    var p, q, d := r.value.0, r.value.1, r.value.2;
    assert s[p..d + 1] == s[p..q] + [s[q]] + s[q + 1..d] + [s[d]];
    assert OccursAt(s, name + "[" + index + "]", p);
  }

  /**
   * The first match starts a word: its name reaches back to the start of s
   * or to a whitespace character, so in "x y[1]" the name is "y".
   */
  lemma FirstMatchStartsWord(s: string, p: nat, q: nat, d: nat)
    requires IsFirstMatch(s, p, q, d)
    ensures p == 0 || IsSpace(s[p - 1])
  {
    if p > 0 && !IsSpace(s[p - 1]) {
      assert IsMatch(s, p - 1, q, d);
    }
  }

  /** A match that spans the whole of s is the first match. */
  lemma WholeMatchIsFirst(s: string, q: nat, d: nat)
    requires IsMatch(s, 0, q, d) && d + 1 == |s|
    ensures IsFirstMatch(s, 0, q, d)
  {
    forall q': nat, d': nat | q < q' ensures !IsMatch(s, 0, q', d') {
      if q' < d {
        assert IsDigit(s[q']);
      }
    }
  }

  /** Only the first occurrence is used: in "a[1] b[2]" the groups are "a" and "1". */
  lemma ParseFirstOccurrenceExample()
    ensures Parse("a[1] b[2]") == Some(("a", "1"))
  {
    var s := "a[1] b[2]";
    assert IsMatch(s, 0, 1, 3);
    forall q': nat, d': nat | 1 < q' ensures !IsMatch(s, 0, q', d') {
      if q' > 4 {
        assert IsSpace(s[4]);
      }
    }
    ParseFirstMatch(s, 0, 1, 3);
    assert s[0..1] == "a" && s[2..3] == "1";
  }

  /** The name is taken as long as possible: in "a[1][2]" it is "a[1]" and the index is "2". */
  lemma ParseLongestNameExample()
    ensures Parse("a[1][2]") == Some(("a[1]", "2"))
  {
    var s := "a[1][2]";
    assert IsFirstMatch(s, 0, 4, 6);
    ParseFirstMatch(s, 0, 4, 6);
    assert s[0..4] == "a[1]" && s[5..6] == "2";
  }

  /** The name holds no whitespace: in "x y[1]" it is "y". */
  lemma ParseAfterSpaceExample()
    ensures Parse("x y[1]") == Some(("y", "1"))
  {
    var s := "x y[1]";
    assert IsMatch(s, 2, 3, 5);
    forall p': nat, q': nat, d': nat | p' < 2 ensures !IsMatch(s, p', q', d') {
      if q' > 1 {
        assert IsSpace(s[1]);
      }
    }
    ParseFirstMatch(s, 2, 3, 5);
    assert s[2..3] == "y" && s[4..5] == "1";
  }

  /** A bracket holding anything but digits, as in "foo[abc]", is no match. */
  lemma NonNumericIndexExample()
    ensures !HasMatch("foo[abc]")
  {
    var s := "foo[abc]";
    assert forall k :: 0 <= k < |s| ==> !IsDigit(s[k]);
    forall p: nat, q: nat, d: nat ensures !IsMatch(s, p, q, d) {
      if q + 1 < |s| {
        assert !IsDigit(s[q + 1]);
      }
    }
  }

  /** A plain attribute name is no match. */
  lemma PlainNameExample()
    ensures !HasMatch("eduPersonAffiliation")
  {
    var s := "eduPersonAffiliation";
    assert forall k :: 0 <= k < |s| ==> s[k] != '[';
  }
}
