/**
 * The search `re.search(r"ModuleNotFoundError: No module named '(.*)'", text)`
 * and its group 1. Without flags `.` matches every character but a newline, `.*`
 * is greedy, and `search` reports the leftmost position at which the pattern
 * matches; at that position the greedy group is the longest one that still lets
 * the closing quote match.
 */
module ModuleName {
  import opened Wrappers
  import opened Text

  /** The literal part of the pattern up to and including the opening quote. */
  const Marker: string := "ModuleNotFoundError: No module named '"

  /**
   * The pattern matches at `i` with its closing quote at `q`: the marker, then
   * characters other than a newline up to `q`, then the quote at `q`.
   */
  ghost predicate ClosesAt(s: string, i: int, q: int)
  {
    OccursAt(s, Marker, i) && i + |Marker| <= q < |s| && s[q] == '\'' &&
    forall j :: i + |Marker| <= j < q ==> s[j] != '\n'
  }

  /** One way the pattern matches at `i` with group 1 equal to `name`. */
  ghost predicate Candidate(s: string, i: int, name: string)
  {
    0 <= i && i + |Marker| + |name| < |s| &&
    s[i + |Marker| .. i + |Marker| + |name|] == name &&
    ClosesAt(s, i, i + |Marker| + |name|)
  }

  /** The match the greedy `.*` settles on at `i`: no later closing quote also fits. */
  ghost predicate Longest(s: string, i: int, name: string)
  {
    Candidate(s, i, name) && forall q :: ClosesAt(s, i, q) ==> q <= i + |Marker| + |name|
  }

  /** What `re.search(...).group(1)` returns: the greedy group at the leftmost matching position. */
  ghost predicate FirstLongest(s: string, name: string)
  {
    exists i :: Longest(s, i, name) && forall j, q :: 0 <= j < i ==> !ClosesAt(s, j, q)
  }

  /** Index of the first newline at or after `k`, or `|s|` if there is none. */
  function LineEnd(s: string, k: nat): (e: nat)
    requires k <= |s|
    ensures k <= e <= |s|
    ensures forall j :: k <= j < e ==> s[j] != '\n'
    ensures e < |s| ==> s[e] == '\n'
    decreases |s| - k
  {
    if k == |s| || s[k] == '\n' then k else LineEnd(s, k + 1)
  }

  /** Index of the last quote in `s[k..e]`. */
  function LastQuote(s: string, k: nat, e: nat): (q: Option<nat>)
    requires k <= e <= |s|
    ensures q.Some? ==> k <= q.value < e && s[q.value] == '\''
    ensures q.Some? ==> forall j :: q.value < j < e ==> s[j] != '\''
    ensures q.None? ==> forall j :: k <= j < e ==> s[j] != '\''
    decreases e - k
  {
    if e == k then None
    else if s[e - 1] == '\'' then Some(e - 1)
    else LastQuote(s, k, e - 1)
  }

  /** The pattern anchored at `i`: group 1 runs to the last quote of the marker's line. */
  function MatchAt(s: string, i: nat): Option<string>
    requires i <= |s|
  {
    if !OccursAt(s, Marker, i) then None
    else
      var k := i + |Marker|;
      match LastQuote(s, k, LineEnd(s, k))
      case None => None
      case Some(q) => Some(s[k..q])
  }

  /** Scans start positions from `i` onwards, as `re.search` does. */
  function SearchFrom(s: string, i: nat): Option<string>
    requires i <= |s|
    decreases |s| - i
  {
    var m := MatchAt(s, i);
    if m.Some? || i == |s| then m else SearchFrom(s, i + 1)
  }

  /**
   * Group 1 of the search over the whole text: the greedy group of the leftmost
   * match, or None exactly when the pattern matches nowhere.
   */
  function ModuleNotFound(s: string): (m: Option<string>)
    ensures m.Some? ==> FirstLongest(s, m.value)
    ensures m.None? <==> forall i, q :: !ClosesAt(s, i, q)
  {
    SearchFromFinds(s, 0);
    SearchFrom(s, 0)
  }

  /** A closing quote lies on the marker's own line. */
  lemma ClosesBeforeLineEnd(s: string, i: nat, q: int)
    requires ClosesAt(s, i, q)
    ensures q < LineEnd(s, i + |Marker|)
  {
  }

  /** MatchAt finds the greedy match at `i` when there is one, and only then. */
  lemma MatchAtIsLongest(s: string, i: nat)
    requires i <= |s|
    ensures MatchAt(s, i).Some? ==> Longest(s, i, MatchAt(s, i).value)
    ensures MatchAt(s, i).None? ==> forall q :: !ClosesAt(s, i, q)
  {
    if OccursAt(s, Marker, i) {
      var k := i + |Marker|;
      var e := LineEnd(s, k);
      var last := LastQuote(s, k, e);
      forall q | ClosesAt(s, i, q)
        ensures last.Some? && q <= last.value
      {
        ClosesBeforeLineEnd(s, i, q);
      }
      if last.Some? {
        assert ClosesAt(s, i, last.value);
        assert Candidate(s, i, s[k..last.value]);
      }
    }
  }

  lemma {:induction false} SearchFromFinds(s: string, i: nat)
    requires i <= |s|
    ensures SearchFrom(s, i).Some? ==>
      exists p :: i <= p && Longest(s, p, SearchFrom(s, i).value) &&
        forall j, q :: i <= j < p ==> !ClosesAt(s, j, q)
    ensures SearchFrom(s, i).None? ==> forall j, q :: i <= j ==> !ClosesAt(s, j, q)
    decreases |s| - i
  {
    MatchAtIsLongest(s, i);
    if MatchAt(s, i).Some? {
      assert Longest(s, i, SearchFrom(s, i).value);
    } else if i < |s| {
      SearchFromFinds(s, i + 1);
      if SearchFrom(s, i).Some? {
        var p :| i + 1 <= p && Longest(s, p, SearchFrom(s, i).value) &&
          forall j, q :: i + 1 <= j < p ==> !ClosesAt(s, j, q);
        assert forall j, q :: i <= j < p ==> !ClosesAt(s, j, q);
      }
    }
  }

  /** Two leftmost-greedy matches of the same text name the same module. */
  lemma FirstLongestUnique(s: string, a: string, b: string)
    requires FirstLongest(s, a) && FirstLongest(s, b)
    ensures a == b
  {
    var i :| Longest(s, i, a) && forall j, q :: 0 <= j < i ==> !ClosesAt(s, j, q);
    var p :| Longest(s, p, b) && forall j, q :: 0 <= j < p ==> !ClosesAt(s, j, q);
    SamePosition(s, i, p, i + |Marker| + |a|, p + |Marker| + |b|);
    SameGroup(s, i, a, b);
  }

  /** Two positions that each close a match, with no match before either, coincide. */
  lemma SamePosition(s: string, i: int, p: int, qi: int, qp: int)
    requires 0 <= i && 0 <= p && ClosesAt(s, i, qi) && ClosesAt(s, p, qp)
    requires forall j, q :: 0 <= j < i ==> !ClosesAt(s, j, q)
    requires forall j, q :: 0 <= j < p ==> !ClosesAt(s, j, q)
    ensures i == p
  {
  }

  /** At one position the greedy group is unique. */
  lemma SameGroup(s: string, i: int, a: string, b: string)
    requires Longest(s, i, a) && Longest(s, i, b)
    ensures a == b
  {
    assert |a| == |b|;
    assert a == s[i + |Marker| .. i + |Marker| + |a|] == b;
  }

  /** The position at which the search succeeds, with no match anywhere before it. */
  lemma MatchPosition(s: string) returns (i: nat)
    requires ModuleNotFound(s).Some?
    ensures Longest(s, i, ModuleNotFound(s).value)
    ensures forall j, q :: 0 <= j < i ==> !ClosesAt(s, j, q)
  {
    SearchFromFinds(s, 0);
    i :| 0 <= i && Longest(s, i, ModuleNotFound(s).value) &&
      forall j, q :: 0 <= j < i ==> !ClosesAt(s, j, q);
  }

  /**
   * ModuleNotFound is exactly the regex search: it yields `name` if and only if
   * `name` is group 1 of the leftmost, greedy match, and nothing if and only if
   * the pattern matches nowhere.
   */
  lemma ModuleNotFoundIsSearch(s: string, name: string)
    ensures ModuleNotFound(s) == Some(name) <==> FirstLongest(s, name)
    ensures ModuleNotFound(s).None? <==> forall i, q :: !ClosesAt(s, i, q)
  {
    if ModuleNotFound(s).None? {
      SearchFromFinds(s, 0);
    } else {
      var p := MatchPosition(s);
      assert ClosesAt(s, p, p + |Marker| + |ModuleNotFound(s).value|);
      assert FirstLongest(s, ModuleNotFound(s).value);
      if FirstLongest(s, name) {
        FirstLongestUnique(s, name, ModuleNotFound(s).value);
      }
    }
  }

  /** The group never spans a line break, and no quote follows it on its line. */
  lemma ModuleNameIsOneLine(s: string)
    requires ModuleNotFound(s).Some?
    ensures forall c :: 0 <= c < |ModuleNotFound(s).value| ==> ModuleNotFound(s).value[c] != '\n'
    ensures exists i :: (Candidate(s, i, ModuleNotFound(s).value) &&
      forall j :: i + |Marker| + |ModuleNotFound(s).value| < j < LineEnd(s, i + |Marker|) ==> s[j] != '\'')
  {
    var name := ModuleNotFound(s).value;
    var i := MatchPosition(s);
    var k := i + |Marker|;
    var e := LineEnd(s, k);
    forall c | 0 <= c < |name| ensures name[c] != '\n' {
      assert name[c] == s[k + c];
    }
    forall j | k + |name| < j < e ensures s[j] != '\'' {
      if s[j] == '\'' {
        assert ClosesAt(s, i, j);
      }
    }
  }

  /** A successful search implies the text contains `ModuleNotFoundError`. */
  lemma ModuleNotFoundMentionsError(s: string)
    ensures ModuleNotFound(s).Some? ==> Contains(s, "ModuleNotFoundError")
  {
    if ModuleNotFound(s).Some? {
      var i := MatchPosition(s);
      MarkerNamesError(s, i);
    }
  }

  /** The marker begins with the exception's name. */
  lemma MarkerNamesError(s: string, i: int)
    requires OccursAt(s, Marker, i)
    ensures OccursAt(s, "ModuleNotFoundError", i)
  {
    var guard := "ModuleNotFoundError";
    assert Marker[..|guard|] == guard;
    assert s[i..i + |guard|] == s[i..i + |Marker|][..|guard|];
  }
}
