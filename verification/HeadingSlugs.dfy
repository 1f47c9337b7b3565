/**
 Unique slugs for headings: the first free one among the base slug and its numbered variants,
 searched from a counter kept per slug.
 */
module HeadingSlugs {
  import opened Wrappers

  /** Every slug recorded so far, with the last number tried for it. */
  type Occurrences = map<string, nat>

  // ---------- Decimal numbers ----------

  function Digit(n: nat): char
    requires n < 10
  {
    "0123456789"[n]
  }

  function Decimal(n: nat): (s: string)
    ensures s != []
  {
    if n < 10 then [Digit(n)] else Decimal(n / 10) + [Digit(n % 10)]
  }

  lemma {:induction false} DecimalIsInjective(m: nat, n: nat)
    requires Decimal(m) == Decimal(n)
    ensures m == n
  {
    var s, t := Decimal(m), Decimal(n);
    assert s[|s| - 1] == Digit(m % 10) && t[|t| - 1] == Digit(n % 10);
    assert s[..|s| - 1] == if m < 10 then [] else Decimal(m / 10);
    assert t[..|t| - 1] == if n < 10 then [] else Decimal(n / 10);
    if m >= 10 && n >= 10 {
      DecimalIsInjective(m / 10, n / 10);
    }
  }

  /** The number that a text of decimal digits stands for. */
  function Reading(s: string): int {
    if s == "" then 0 else 10 * Reading(s[..|s| - 1]) + (s[|s| - 1] as int - '0' as int)
  }

  /** A number is written with decimal digits, which read as the number, and without leading zeros. */
  lemma {:induction false} DecimalReadsBack(n: nat)
    ensures Reading(Decimal(n)) == n
    ensures forall c :: c in Decimal(n) ==> '0' <= c <= '9'
    ensures Decimal(n)[0] == '0' ==> n == 0 && Decimal(n) == "0"
  {
    if n < 10 {
      assert Decimal(n)[..0] == "";
    } else {
      DecimalReadsBack(n / 10);
      var s := Decimal(n);
      assert s[..|s| - 1] == Decimal(n / 10);
    }
  }

  function Numbered(slug: string, k: nat): string {
    slug + "-" + Decimal(k)
  }

  lemma NumberedIsInjective(slug: string, j: nat, k: nat)
    requires Numbered(slug, j) == Numbered(slug, k)
    ensures j == k
  {
    assert Numbered(slug, j)[|slug| + 1..] == Decimal(j);
    assert Numbered(slug, k)[|slug| + 1..] == Decimal(k);
    DecimalIsInjective(j, k);
  }

  // ---------- The search ----------

  ghost predicate IsLeastFree(taken: set<string>, slug: string, above: nat, k: nat) {
    && k > above && Numbered(slug, k) !in taken
    && forall j: nat :: above < j < k ==> Numbered(slug, j) in taken
  }

  /** The taken candidates numbered above `above`: a search beginning there meets no others. */
  ghost function Ahead(taken: set<string>, slug: string, above: nat): set<string> {
    set s | s in taken && exists k: nat :: k > above && s == Numbered(slug, k)
  }

  lemma AheadShrinks(taken: set<string>, slug: string, above: nat)
    ensures Ahead(taken, slug, above + 1) <= Ahead(taken, slug, above)
    ensures Numbered(slug, above + 1) in taken ==> Ahead(taken, slug, above + 1) < Ahead(taken, slug, above)
  {
    if Numbered(slug, above + 1) in taken {
      assert Numbered(slug, above + 1) in Ahead(taken, slug, above);
      if Numbered(slug, above + 1) in Ahead(taken, slug, above + 1) {
        var k: nat :| k > above + 1 && Numbered(slug, above + 1) == Numbered(slug, k);
        NumberedIsInjective(slug, k, above + 1);
      }
    }
  }

  /** The number of the slug that the search settles on. */
  function FirstFree(taken: set<string>, slug: string, above: nat): (k: nat)
    ensures IsLeastFree(taken, slug, above, k)
    decreases Ahead(taken, slug, above)
  {
    if Numbered(slug, above + 1) !in taken then above + 1
    else
      AheadShrinks(taken, slug, above);
      FirstFree(taken, slug, above + 1)
  }

  function SlugFor(taken: Occurrences, slug: string): string {
    if slug in taken then Numbered(slug, FirstFree(taken.Keys, slug, taken[slug])) else slug
  }

  /** The counter of a taken slug moves on to the number found; the new slug is recorded with zero. */
  function Recorded(taken: Occurrences, slug: string): Occurrences {
    if slug in taken then
      var k := FirstFree(taken.Keys, slug, taken[slug]);
      taken[slug := k][Numbered(slug, k) := 0]
    else taken[slug := 0]
  }

  class SlugTable {
    var occurrences: Occurrences

    constructor ()
      ensures occurrences == map[]
    {
      occurrences := map[];
    }

    /** Terminates for every table, since the taken candidates ahead of the counter run out. */
    method UniqueSlug(slug: string) returns (result: string)
      modifies this
      ensures result == SlugFor(old(occurrences), slug)
      ensures result !in old(occurrences)
      ensures occurrences == Recorded(old(occurrences), slug)
      ensures slug !in old(occurrences) ==> result == slug && occurrences == old(occurrences)[slug := 0]
      ensures slug in old(occurrences) ==>
                && slug in occurrences && result == slug + "-" + Decimal(occurrences[slug])
                && occurrences == old(occurrences)[slug := occurrences[slug]][result := 0]
    {
      hide Decimal;
      result := slug;
      ghost var taken := occurrences;
      while result in occurrences
        invariant slug !in taken ==> result == slug && occurrences == taken
        invariant slug in taken ==> slug in occurrences && occurrences == taken[slug := occurrences[slug]]
        invariant slug in taken && result == slug ==> occurrences == taken
        invariant slug in taken ==> result == slug || result == Numbered(slug, occurrences[slug])
        invariant slug in taken ==> occurrences[slug] >= taken[slug]
        invariant slug in taken && result == slug ==> occurrences[slug] == taken[slug]
        invariant slug in taken && result != slug ==> occurrences[slug] > taken[slug]
        invariant slug in taken ==>
                    forall j: nat :: taken[slug] < j < occurrences[slug] ==> Numbered(slug, j) in taken
        decreases if slug in occurrences then Ahead(taken.Keys, slug, occurrences[slug]) else {},
                  if result in taken then 1 else 0
      {
        ghost var k := occurrences[slug];
        AheadShrinks(taken.Keys, slug, k);
        occurrences := occurrences[slug := occurrences[slug] + 1];
        result := Numbered(slug, occurrences[slug]);
        assert occurrences == taken[slug := k + 1];
        assert occurrences.Keys == taken.Keys;
        if result !in taken {
          AheadIsSame(taken.Keys, slug, k);
        }
      }
      occurrences := occurrences[result := 0];
      if slug in taken {
        ghost var k := taken[slug];
        LeastFreeIsUnique(taken.Keys, slug, k, FirstFree(taken.Keys, slug, k));
      }
    }

    /** A heading that keeps its identifier is recorded too, which restarts its counter. */
    method Record(id: string)
      modifies this
      ensures occurrences == old(occurrences)[id := 0]
    {
      occurrences := occurrences[id := 0];
    }
  }

  lemma AheadIsSame(taken: set<string>, slug: string, above: nat)
    requires Numbered(slug, above + 1) !in taken
    ensures Ahead(taken, slug, above + 1) == Ahead(taken, slug, above)
  {
    forall s | s in Ahead(taken, slug, above)
      ensures s in Ahead(taken, slug, above + 1)
    {
      var k: nat :| k > above && s == Numbered(slug, k);
      assert k > above + 1;
    }
  }

  lemma LeastFreeIsUnique(taken: set<string>, slug: string, above: nat, k: nat)
    requires IsLeastFree(taken, slug, above, k)
    ensures forall j :: IsLeastFree(taken, slug, above, j) ==> j == k
  {
  }

  /** The slug is new, and it is the base slug when that is free and otherwise the least free numbered variant
      above the stored counter. The counter moves to the number found, the new slug starts with zero, and nothing
      else in the table changes. */
  lemma SlugIsFirstFree(taken: Occurrences, slug: string)
    ensures SlugFor(taken, slug) !in taken
    ensures slug !in taken ==> SlugFor(taken, slug) == slug && Recorded(taken, slug) == taken[slug := 0]
    ensures slug in taken ==>
              exists k: nat ::
                && SlugFor(taken, slug) == Numbered(slug, k) && IsLeastFree(taken.Keys, slug, taken[slug], k)
                && Recorded(taken, slug) == taken[slug := k][Numbered(slug, k) := 0]
    ensures Recorded(taken, slug).Keys == taken.Keys + {SlugFor(taken, slug)}
  {
    if slug in taken {
      var k := FirstFree(taken.Keys, slug, taken[slug]);
      assert SlugFor(taken, slug) == Numbered(slug, k);
    }
  }

  // ---------- The same slug again and again ----------

  /** The slugs given to `n` headings with the same text, one after another. */
  function Repeated(taken: Occurrences, slug: string, n: nat): (r: (seq<string>, Occurrences))
    ensures |r.0| == n
  {
    if n == 0 then ([], taken)
    else
      var (slugs, before) := Repeated(taken, slug, n - 1);
      (slugs + [SlugFor(before, slug)], Recorded(before, slug))
  }

  /** The slug has been given `n` times, the first time plain and then with consecutive numbers. */
  ghost predicate GivenTimes(taken: Occurrences, slug: string, n: nat) {
    && (n == 0 ==> slug !in taken) && (n > 0 ==> slug in taken && taken[slug] == n - 1)
    && forall k: nat :: k >= 1 ==> (Numbered(slug, k) in taken <==> k < n)
  }

  lemma GivenOnceMore(taken: Occurrences, slug: string, n: nat)
    requires GivenTimes(taken, slug, n)
    ensures SlugFor(taken, slug) == if n == 0 then slug else Numbered(slug, n)
    ensures GivenTimes(Recorded(taken, slug), slug, n + 1)
  {
    hide Decimal;
    forall k: nat | k >= 1 ensures Numbered(slug, k) != slug {}
    if n > 0 {
      assert IsLeastFree(taken.Keys, slug, n - 1, n);
      LeastFreeIsUnique(taken.Keys, slug, n - 1, n);
      forall k: nat | Numbered(slug, k) == Numbered(slug, n) ensures k == n {
        NumberedIsInjective(slug, k, n);
      }
    }
  }

  lemma {:induction false} RepeatedGivesTimes(taken: Occurrences, slug: string, n: nat)
    requires GivenTimes(taken, slug, 0)
    ensures GivenTimes(Repeated(taken, slug, n).1, slug, n)
    ensures forall i :: 0 <= i < n ==> Repeated(taken, slug, n).0[i] == if i == 0 then slug else Numbered(slug, i)
  {
    hide SlugFor, Recorded, Numbered, GivenTimes;
    if n > 0 {
      RepeatedGivesTimes(taken, slug, n - 1);
      GivenOnceMore(Repeated(taken, slug, n - 1).1, slug, n - 1);
    }
  }

  /** Headings with the same text get `slug`, `slug-1`, `slug-2` and so on, if none of these is taken before. */
  lemma RepeatedSlugsAreNumbered(taken: Occurrences, slug: string, n: nat, i: nat)
    requires slug !in taken && forall k: nat :: k >= 1 ==> slug + "-" + Decimal(k) !in taken
    requires i < n
    ensures Repeated(taken, slug, n).0[i] == if i == 0 then slug else slug + "-" + Decimal(i)
  {
    hide Decimal;
    assert forall k: nat :: k >= 1 ==> Numbered(slug, k) == slug + "-" + Decimal(k);
    RepeatedGivesTimes(taken, slug, n);
  }

  /** The same for calls on a table. */
  method GiveRepeatedly(table: SlugTable, slug: string, n: nat) returns (slugs: seq<string>)
    requires slug !in table.occurrences
    requires forall k: nat :: k >= 1 ==> slug + "-" + Decimal(k) !in table.occurrences
    modifies table
    ensures |slugs| == n
    ensures forall i: nat :: i < n ==> slugs[i] == if i == 0 then slug else slug + "-" + Decimal(i)
  {
    slugs := [];
    for i := 0 to n
      invariant (slugs, table.occurrences) == Repeated(old(table.occurrences), slug, i)
    {
      var next := table.UniqueSlug(slug);
      slugs := slugs + [next];
    }
    forall i: nat | i < n
      ensures slugs[i] == if i == 0 then slug else slug + "-" + Decimal(i)
    {
      RepeatedSlugsAreNumbered(old(table.occurrences), slug, n, i);
    }
  }
}
