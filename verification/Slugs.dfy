/** Project slugs in an import: which ones are accepted, and how a colliding one is renamed. */
module Slugs {
  import opened Text
  import opened Numerals
  import opened Json

  // ---- _normalize_slug -------------------------------------------------------------------------------------------

  /**
   str.lower, exactly for every character whose lower case could belong to a slug: besides A-Z that is the Kelvin
   sign, and the dotted capital I, whose lower case has a second character. Others stay outside slugs either way.
   */
  function Lower(c: char): string {
    if 'A' <= c <= 'Z' then [c + 32 as char]
    else if c as int == 0x212A then "k"
    else if c as int == 0x130 then ['i', '\U{0307}']
    else [c]
  }

  function LowerAll(t: string): string { if t == "" then "" else Lower(t[0]) + LowerAll(t[1..]) }

  predicate SlugEnd(c: char) { 'a' <= c <= 'z' || IsDigit(c) }

  /** A full match of [a-z0-9](?:[a-z0-9-]{0,48}[a-z0-9])? */
  predicate IsSlug(t: string) {
    && 1 <= |t| <= 50 && SlugEnd(t[0]) && SlugEnd(t[|t| - 1])
    && forall i | 0 <= i < |t| :: SlugEnd(t[i]) || t[i] == '-'
  }

  function NormalizeSlug(raw: Option<JSON>): (r: Option<string>)
    ensures r.Some? ==> IsSlug(r.value)
  {
    match raw
    case Some(JString(s)) => var c := LowerAll(Strip(s)); if IsSlug(c) then Some(c) else None
    case _ => None
  }

  lemma {:induction false} SlugIsLower(t: string)
    requires forall i | 0 <= i < |t| :: SlugEnd(t[i]) || t[i] == '-'
    ensures LowerAll(t) == t
  {
    if t != "" {
      SlugIsLower(t[1..]);
      assert t == [t[0]] + t[1..];
    }
  }

  lemma NothingToStrip(t: string)
    requires t == "" || (!IsSpace(t[0]) && !IsSpace(t[|t| - 1]))
    ensures Strip(t) == t
  {
  }

  /** A slug that already has the required form is kept as it is. */
  lemma SlugKept(s: string)
    requires IsSlug(s)
    ensures NormalizeSlug(Some(JString(s))) == Some(s)
  {
    EndsVisible(s);
    NothingToStrip(s);
    SlugIsLower(s);
    hide Strip, LowerAll, SlugEnd;
  }

  lemma EndsVisible(s: string)
    requires IsSlug(s)
    ensures !IsSpace(s[0]) && !IsSpace(s[|s| - 1])
  {
  }

  // ---- _next_free_slug -------------------------------------------------------------------------------------------

  const IMPORTED := "-imported"

  /** The candidates in the order they are tried: base, base-imported, base-imported-2, base-imported-3, ... */
  function Candidate(base: string, n: nat): string {
    if n == 0 then base
    else if n == 1 then base + IMPORTED
    else base + IMPORTED + ("-" + Decimal(n))
  }

  /** No candidate is tried twice: decimal suffixes are injective. */
  lemma CandidateInjective(base: string, m: nat, n: nat)
    requires Candidate(base, m) == Candidate(base, n)
    ensures m == n
  {
    hide Decimal;
    assert |IMPORTED| == 9;
    if m > 1 && n > 1 {
      var p := base + IMPORTED + "-";
      assert Candidate(base, m) == p + Decimal(m) && Candidate(base, n) == p + Decimal(n);
      assert (p + Decimal(m))[|p|..] == Decimal(m) && (p + Decimal(n))[|p|..] == Decimal(n);
      DecimalInjective(m, n);
    }
  }

  ghost function Tried(base: string, n: nat): set<string> {
    if n == 0 then {} else Tried(base, n - 1) + {Candidate(base, n - 1)}
  }

  lemma {:induction false} TriedAre(base: string, n: nat, c: string)
    ensures c in Tried(base, n) <==> exists j: nat :: j < n && c == Candidate(base, j)
  {
    hide Candidate;
    if n > 0 {
      TriedAre(base, n - 1, c);
      if c == Candidate(base, n - 1) { assert c in Tried(base, n); }
    }
  }

  lemma {:induction false} TriedCount(base: string, n: nat)
    ensures |Tried(base, n)| == n
  {
    hide Candidate;
    if n > 0 {
      TriedCount(base, n - 1);
      TriedAre(base, n - 1, Candidate(base, n - 1));
      if Candidate(base, n - 1) in Tried(base, n - 1) {
        var j: nat :| j < n - 1 && Candidate(base, n - 1) == Candidate(base, j);
        CandidateInjective(base, n - 1, j);
      }
    }
  }

  lemma SubsetSmaller(a: set<string>, b: set<string>)
    requires a <= b
    ensures |a| <= |b|
  {
    assert b == a + (b - a);
  }

  /** If the first n candidates are all taken, there are at least n taken slugs. */
  lemma TriedBound(base: string, taken: set<string>, n: nat)
    requires forall j: nat | j < n :: Candidate(base, j) in taken
    ensures n <= |taken|
  {
    hide Candidate;
    TriedCount(base, n);
    forall c | c in Tried(base, n) ensures c in taken {
      TriedAre(base, n, c);
      var j: nat :| j < n && c == Candidate(base, j);
    }
    SubsetSmaller(Tried(base, n), taken);
  }

  /** The number of the first candidate from n on that is free. */
  function FirstFree(base: string, taken: set<string>, n: nat): (k: nat)
    requires forall j: nat | j < n :: Candidate(base, j) in taken
    ensures Candidate(base, k) !in taken && forall j: nat | j < k :: Candidate(base, j) in taken
    decreases |taken| + 1 - n
  {
    TriedBound(base, taken, n);
    if Candidate(base, n) in taken then FirstFree(base, taken, n + 1) else n
  }

  function FreeSlug(base: string, taken: set<string>): string { Candidate(base, FirstFree(base, taken, 0)) }

  predicate Renamed(base: string, taken: set<string>) { base in taken }

  /** The loop ends for every finite set of taken slugs, with the first candidate that is free. */
  method NextFreeSlug(base: string, taken: set<string>) returns (slug: string, renamed: bool)
    ensures slug == FreeSlug(base, taken) && slug !in taken
    ensures renamed == Renamed(base, taken) == (slug != base)
  {
    hide Decimal;
    if base !in taken {
      return base, false;
    }
    var candidate := base + IMPORTED;
    var n := 1;
    while candidate in taken
      invariant n >= 1 && candidate == Candidate(base, n)
      invariant forall j: nat | j < n :: Candidate(base, j) in taken
      decreases |taken| + 1 - n
    {
      TriedBound(base, taken, n + 1);
      n := n + 1;
      candidate := base + IMPORTED + ("-" + Decimal(n));
    }
    FreeIs(base, taken, n);
    return candidate, true;
  }

  lemma FreeIs(base: string, taken: set<string>, n: nat)
    requires Candidate(base, n) !in taken && forall j: nat | j < n :: Candidate(base, j) in taken
    ensures FreeSlug(base, taken) == Candidate(base, n)
  {
    hide Candidate;
    var k := FirstFree(base, taken, 0);
    assert k == n;
  }

  /** The slug notes when notes and notes-imported are taken. */
  lemma ThirdCandidate()
    ensures FreeSlug("notes", {"notes", "notes-imported"}) == "notes-imported-2"
  {
    var taken := {"notes", "notes-imported"};
    assert Candidate("notes", 0) == "notes" && Candidate("notes", 1) == "notes-imported";
    assert Decimal(2) == "2" && "-" + "2" == "-2";
    assert Candidate("notes", 2) == "notes-imported-2";
    assert |"notes-imported-2"| == 16 && |"notes"| == 5 && |"notes-imported"| == 14;
    assert FirstFree("notes", taken, 2) == 2;
    assert FirstFree("notes", taken, 1) == 2;
    assert FirstFree("notes", taken, 0) == 2;
  }
}
