/**
 * The page-to-section lookup of the server and the metrics derived from a
 * page: the division (juz) index and the percentage read.  The lookup is
 * stated over any well-formed table of section starts; the module
 * SurahTable supplies the server's own table and proves it well formed.
 */
module Surahs {
  import opened JsBuiltins

  const TotalPages := 604

  /** One row of the section table: the page it starts on and the names of the sections starting there. */
  datatype Entry = Entry(start: int, names: seq<string>, arabic: seq<string>)

  /** What the lookup returns for a page. */
  datatype SurahInfo = SurahInfo(name: string, arabic: string, start: int, end: int)

  const Separator := " / "

  predicate Increasing(t: seq<Entry>) {
    forall i :: 0 <= i < |t| - 1 ==> t[i].start < t[i + 1].start
  }

  /**
   * What the lookup relies on: the first section starts on page 1, the
   * start pages rise strictly, and the last one lies within the text.
   */
  predicate ValidTable(t: seq<Entry>) {
    |t| > 0 && t[0].start == 1 && Increasing(t) && t[|t| - 1].start <= TotalPages
  }

  lemma {:induction false} IncreasingPairwise(t: seq<Entry>, i: int, j: int)
    requires Increasing(t)
    requires 0 <= i < j < |t|
    ensures t[i].start < t[j].start
    decreases j - i
  {
    if i + 1 < j {
      IncreasingPairwise(t, i + 1, j);
    }
  }

  /**
   * `Math.min(Math.max(Number(page) || 1, 1), TOTAL_PAGES)`: NaN and 0
   * become page 1, anything below 1 becomes 1, anything beyond the last
   * page becomes the last page, and a page in range is kept.
   */
  function ClampPage(page: Number): (p: int)
    ensures 1 <= p <= TotalPages
    ensures page.Int? && 1 <= page.value <= TotalPages ==> p == page.value
    ensures page.Int? && page.value > TotalPages ==> p == TotalPages
    ensures page.NaN? || page.value < 1 ==> p == 1
  {
    var n := OrElse(page, 1);
    var atLeastOne := if n > 1 then n else 1;
    if atLeastOne < TotalPages then atLeastOne else TotalPages
  }

  /** The last of the first n entries that starts on or before p. */
  function LastAtMostAmong(t: seq<Entry>, p: int, n: int): (i: nat)
    requires 0 < n <= |t| && t[0].start <= p
    ensures i < n && t[i].start <= p
    ensures forall j :: i < j < n ==> p < t[j].start
    decreases n
  {
    if t[n - 1].start <= p then n - 1 else LastAtMostAmong(t, p, n - 1)
  }

  /** Reference definition of the entry a page belongs to: the last entry that starts on or before it. */
  function LastAtMost(t: seq<Entry>, p: int): (i: nat)
    requires |t| > 0 && t[0].start <= p
    ensures i < |t| && t[i].start <= p
    ensures forall j :: i < j < |t| ==> p < t[j].start
  {
    LastAtMostAmong(t, p, |t|)
  }

  /** Whatever index is the last one starting on or before p is the one LastAtMost picks. */
  lemma LastAtMostUnique(t: seq<Entry>, p: int, k: int)
    requires |t| > 0 && t[0].start <= p
    requires 0 <= k < |t| && t[k].start <= p
    requires forall j :: k < j < |t| ==> p < t[j].start
    ensures k == LastAtMost(t, p)
  {
  }

  /** The section index never decreases as the page grows. */
  lemma LastAtMostMonotone(t: seq<Entry>, p1: int, p2: int)
    requires |t| > 0 && t[0].start <= p1 <= p2
    ensures LastAtMost(t, p1) <= LastAtMost(t, p2)
  {
  }

  /** End page of entry i: one before the next entry's start, or the last page for the last entry. */
  function EndOf(t: seq<Entry>, i: int): (e: int)
    requires 0 <= i < |t|
  {
    var nextStart := if i + 1 < |t| then t[i + 1].start else TotalPages + 1;
    nextStart - 1
  }

  /** The record the lookup builds from entry i, names joined with " / ". */
  function Describe(t: seq<Entry>, i: int): (info: SurahInfo)
    requires 0 <= i < |t|
  {
    SurahInfo(Join(t[i].names, Separator), Join(t[i].arabic, Separator), t[i].start, EndOf(t, i))
  }

  /**
   * The sections of a well-formed table tile the whole text: the first
   * starts on page 1, each ends just before the next starts, none is
   * empty, and the last ends on the last page.
   */
  lemma SectionsTile(t: seq<Entry>)
    requires ValidTable(t)
    ensures Describe(t, 0).start == 1
    ensures Describe(t, |t| - 1).end == TotalPages
    ensures forall i :: 0 <= i < |t| ==> Describe(t, i).start <= Describe(t, i).end <= TotalPages
    ensures forall i :: 0 <= i < |t| - 1 ==> Describe(t, i).end + 1 == Describe(t, i + 1).start
  {
    forall i | 0 <= i < |t| - 2 ensures EndOf(t, i) <= TotalPages {
      IncreasingPairwise(t, i + 1, |t| - 1);
    }
  }

  /**
   * Page p lies between the start and the end of entry i exactly when i
   * is the entry the lookup picks for p: the sections are disjoint and
   * cover every page.
   */
  lemma ContainsIffSelected(t: seq<Entry>, p: int, i: int)
    requires ValidTable(t) && 1 <= p <= TotalPages && 0 <= i < |t|
    ensures Describe(t, i).start <= p <= Describe(t, i).end <==> i == LastAtMost(t, p)
  {
    var k := LastAtMost(t, p);
    if i + 1 < k {
      IncreasingPairwise(t, i + 1, k);
    } else if i > k {
      assert p < t[i].start;
    }
  }

  /**
   * `findSurahEntry`: clamps the page, walks the table from the front
   * keeping the last entry that starts on or before it and stops at the
   * first one that starts after it, then reports that entry with its end
   * page and its joined names.
   */
  method FindSurahEntryIn(t: seq<Entry>, page: Number) returns (info: SurahInfo)
    requires ValidTable(t)
    ensures info == Describe(t, LastAtMost(t, ClampPage(page)))
    ensures info.start <= ClampPage(page) <= info.end <= TotalPages
  {
    var p := ClampPage(page);
    var idx := 0;
    for i := 0 to |t|
      invariant idx == if i == 0 then 0 else i - 1
      invariant forall j :: 0 <= j < i ==> t[j].start <= p
    {
      if p >= t[i].start {
        idx := i;
      } else {
        forall j | i < j < |t| ensures p < t[j].start {
          IncreasingPairwise(t, i, j);
        }
        LastAtMostUnique(t, p, idx);
        ContainsIffSelected(t, p, idx);
        SectionsTile(t);
        return Describe(t, idx);
      }
    }
    LastAtMostUnique(t, p, idx);
    ContainsIffSelected(t, p, idx);
    SectionsTile(t);
    info := Describe(t, idx);
  }

  /**
   * `getJuz`: `Math.ceil(page / (TOTAL_PAGES / 30))`, taken over the exact
   * rationals, so j is the least integer with 30 * page <= j * TotalPages.
   */
  function Juz(page: int): (j: int)
    ensures (j - 1) * TotalPages < 30 * page <= j * TotalPages
  {
    (30 * page + TotalPages - 1) / TotalPages
  }

  /** Pages of the text fall into divisions 1 to 30, in order. */
  lemma JuzBounds(page: int)
    requires 1 <= page <= TotalPages
    ensures 1 <= Juz(page) <= 30
    ensures page == TotalPages ==> Juz(page) == 30
  {
  }

  lemma JuzMonotone(p1: int, p2: int)
    requires p1 <= p2
    ensures Juz(p1) <= Juz(p2)
  {
  }

  /**
   * `((page / TOTAL_PAGES) * 100).toFixed(1)` as a whole number of tenths
   * of a percent: the integer nearest to 1000 * page / TotalPages (the
   * exact value is never halfway between two tenths).
   */
  function ProgressTenths(page: int): (r: int)
    ensures 2 * (1000 * page - r * TotalPages) < TotalPages
    ensures -TotalPages < 2 * (1000 * page - r * TotalPages)
  {
    var n := 500 * page + 151;
    var r, m := n / 302, n % 302;
    assert n == 302 * r + m;
    // n is odd, so it is never a multiple of 302
    assert m == 2 * (250 * page + 75 - 151 * r) + 1;
    r
  }

  /** Progress runs from 0.0% on page 0 to 100.0% on the last page and never goes down. */
  lemma ProgressBounds(p1: int, p2: int)
    requires 0 <= p1 <= p2 <= TotalPages
    ensures 0 <= ProgressTenths(p1) <= ProgressTenths(p2) <= 1000
    ensures ProgressTenths(TotalPages) == 1000 && ProgressTenths(0) == 0
  {
  }
}
