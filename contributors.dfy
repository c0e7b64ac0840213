/** `filter_contributors`: the contributor list (pre-sorted by the platform) cut to
    the top ten, or to the first ten whose login contains the filter, ignoring case. */
module Contributors {
  import opened Common
  import opened Strings

  /** One entry of the contributors endpoint. */
  datatype Contributor = Contributor(login: string, contributions: int)

  /** How many contributors the filter ever returns. */
  const MaxShown: nat := 10

  /** `a` is `b` with some entries left out, the rest in their original order. */
  predicate IsSubsequence<T(==)>(a: seq<T>, b: seq<T>)
    decreases |b|
  {
    if b == [] then a == []
    else IsSubsequence(a, b[1..]) || (a != [] && a[0] == b[0] && IsSubsequence(a[1..], b[1..]))
  }

  lemma {:induction false} SubsequenceOfSelf<T>(a: seq<T>)
    ensures IsSubsequence(a, a)
    decreases |a|
  {
    if a != [] {
      SubsequenceOfSelf(a[1..]);
    }
  }

  lemma {:induction false} SubsequencePrefix<T>(a: seq<T>, b: seq<T>, k: nat)
    requires IsSubsequence(a, b) && k <= |a|
    ensures IsSubsequence(a[..k], b)
    decreases |b|
  {
    if b == [] {
    } else if IsSubsequence(a, b[1..]) {
      SubsequencePrefix(a, b[1..], k);
    } else if k == 0 {
      EmptySubsequence(b);
    } else {
      SubsequencePrefix(a[1..], b[1..], k - 1);
      assert a[..k][1..] == a[1..][..k - 1];
    }
  }

  lemma {:induction false} EmptySubsequence<T>(b: seq<T>)
    ensures IsSubsequence([], b)
    decreases |b|
  {
    if b != [] {
      EmptySubsequence(b[1..]);
    }
  }

  lemma PrefixIsSubsequence<T>(b: seq<T>, k: nat)
    requires k <= |b|
    ensures IsSubsequence(b[..k], b)
  {
    SubsequenceOfSelf(b);
    SubsequencePrefix(b, b, k);
  }

  /** `username_filter.lower() in c['login'].lower()`. */
  predicate LoginMatches(c: Contributor, filter: string)
  {
    Contains(Lower(c.login), Lower(filter))
  }

  /** The list comprehension: every contributor that matches, in input order. */
  function Matching(cs: seq<Contributor>, filter: string): (r: seq<Contributor>)
    ensures |r| <= |cs|
    ensures forall i :: 0 <= i < |r| ==> LoginMatches(r[i], filter)
  {
    if cs == [] then []
    else (if LoginMatches(cs[0], filter) then [cs[0]] else []) + Matching(cs[1..], filter)
  }

  lemma {:induction false} MatchingAppend(a: seq<Contributor>, b: seq<Contributor>, filter: string)
    ensures Matching(a + b, filter) == Matching(a, filter) + Matching(b, filter)
    decreases |a|
  {
    if a == [] {
      assert a + b == b;
    } else {
      assert (a + b)[0] == a[0];
      assert (a + b)[1..] == a[1..] + b;
      MatchingAppend(a[1..], b, filter);
    }
  }

  /** The comprehension drops entries but never reorders them. */
  lemma {:induction false} MatchingIsSubsequence(cs: seq<Contributor>, filter: string)
    ensures IsSubsequence(Matching(cs, filter), cs)
    decreases |cs|
  {
    if cs != [] {
      MatchingIsSubsequence(cs[1..], filter);
      var m := Matching(cs, filter);
      if LoginMatches(cs[0], filter) {
        assert m[0] == cs[0] && m[1..] == Matching(cs[1..], filter);
      } else {
        assert m == Matching(cs[1..], filter);
      }
    }
  }

  /** Every matching contributor is in the comprehension, at the position given by
      the number of matches before it. */
  lemma MatchingAt(cs: seq<Contributor>, filter: string, j: nat)
    requires j < |cs| && LoginMatches(cs[j], filter)
    ensures |Matching(cs[..j], filter)| < |Matching(cs, filter)|
    ensures Matching(cs, filter)[|Matching(cs[..j], filter)|] == cs[j]
  {
    assert cs == cs[..j] + ([cs[j]] + cs[j + 1..]);
    MatchingAppend(cs[..j], [cs[j]] + cs[j + 1..], filter);
    MatchingAppend([cs[j]], cs[j + 1..], filter);
    assert Matching([cs[j]], filter) == [cs[j]];
  }

  /** An absent or empty filter is falsy in Python. */
  predicate NoFilter(filter: Option<string>)
  {
    filter.None? || filter.value == ""
  }

  /** `filter_contributors(contributors_data, username_filter)`. */
  function FilterContributors(cs: seq<Contributor>, filter: Option<string>): (r: seq<Contributor>)
    ensures |r| <= MaxShown
    ensures NoFilter(filter) ==> r == cs[..Min(MaxShown, |cs|)]
    ensures !NoFilter(filter) ==> forall i :: 0 <= i < |r| ==> LoginMatches(r[i], filter.value)
  {
    if NoFilter(filter) then cs[..Min(MaxShown, |cs|)]
    else
      var filtered := Matching(cs, filter.value);
      filtered[..Min(MaxShown, |filtered|)]
  }

  /** The result keeps the input order: it is a subsequence of the input. */
  lemma FilterPreservesOrder(cs: seq<Contributor>, filter: Option<string>)
    ensures IsSubsequence(FilterContributors(cs, filter), cs)
  {
    if NoFilter(filter) {
      PrefixIsSubsequence(cs, Min(MaxShown, |cs|));
    } else {
      var filtered := Matching(cs, filter.value);
      MatchingIsSubsequence(cs, filter.value);
      SubsequencePrefix(filtered, cs, Min(MaxShown, |filtered|));
    }
  }

  /** With a filter, a matching contributor is left out only when ten earlier
      contributors already matched; otherwise it sits at the position given by the
      number of earlier matches. */
  lemma FilterKeepsEarlyMatches(cs: seq<Contributor>, filter: string, j: nat)
    requires filter != ""
    requires j < |cs| && LoginMatches(cs[j], filter)
    ensures var before := |Matching(cs[..j], filter)|;
      var r := FilterContributors(cs, Some(filter));
      before < MaxShown ==> before < |r| && r[before] == cs[j]
  {
    MatchingAt(cs, filter, j);
  }

  /** With a filter, the result has `min(10, m)` entries, `m` the number of matches. */
  lemma FilterLength(cs: seq<Contributor>, filter: string)
    requires filter != ""
    ensures |FilterContributors(cs, Some(filter))| == Min(MaxShown, |Matching(cs, filter)|)
  {
  }

  /** A one-letter filter that is not upper case matches exactly the logins whose
      lower-case form holds that letter. */
  lemma LoginMatchesChar(c: Contributor, ch: char)
    requires !IsUpper(ch)
    ensures LoginMatches(c, [ch]) <==> ch in Lower(c.login)
  {
    LowerOfLower([ch]);
    ContainsChar(Lower(c.login), ch);
  }

  /** Two filters with the same lower-case form select the same contributors. */
  lemma {:induction false} MatchingSameLower(cs: seq<Contributor>, f: string, g: string)
    requires Lower(f) == Lower(g)
    ensures Matching(cs, f) == Matching(cs, g)
  {
    if cs != [] {
      MatchingSameLower(cs[1..], f, g);
    }
  }

  /** The filter is case-insensitive: it selects the same contributors as its
      lower-case form. */
  lemma FilterCaseInsensitive(cs: seq<Contributor>, filter: string)
    ensures FilterContributors(cs, Some(filter)) == FilterContributors(cs, Some(Lower(filter)))
  {
    LowerIdempotent(filter);
    MatchingSameLower(cs, filter, Lower(filter));
  }
}
