/**
 * The dashboard shows four statistic cards in a fixed order. Each card's
 * value is the backend's counter, or 0 when it is missing; each card and its
 * value carry a test id derived from the card's title by lowercasing it and
 * replacing every run of whitespace with one `-`
 * (`title.toLowerCase().replace(/\s+/g, '-')`).
 */
module Dashboard {
  import opened JsValues
  import opened Text
  import opened Stats

  // ---------------------------------------------------------------------
  // Title slugs

  /**
   * `s.replace(/\s+/g, '-')`: each maximal run of whitespace becomes one `-`.
   * The result holds no whitespace and is never longer than `s`.
   */
  function CollapseSpaces(s: string): (r: string)
    ensures NoSpace(r) && |r| <= |s|
    decreases |s|
  {
    if s == [] then []
    else if IsSpace(s[0]) then "-" + CollapseSpaces(TrimStart(s[1..]))
    else [s[0]] + CollapseSpaces(s[1..])
  }

  /** The replacement adds no upper-case letter. */
  lemma {:induction false} CollapseClean(s: string)
    ensures NoUpper(s) ==> NoUpper(CollapseSpaces(s))
    decreases |s|
  {
    if s != [] {
      var r := CollapseSpaces(s);
      if IsSpace(s[0]) {
        var t := TrimStart(s[1..]);
        CollapseClean(t);
        if NoUpper(s) {
          assert NoUpper(t) by {
            forall k | 0 <= k < |t| ensures !('A' <= t[k] <= 'Z') {
              assert t[k] == s[1 + |s[1..]| - |t| + k];
            }
          }
        }
        assert r == "-" + CollapseSpaces(t);
      } else {
        var t := s[1..];
        CollapseClean(t);
        if NoUpper(s) {
          assert NoUpper(t) by {
            forall k | 0 <= k < |t| ensures !('A' <= t[k] <= 'Z') {
              assert t[k] == s[k + 1];
            }
          }
        }
        assert r == [s[0]] + CollapseSpaces(t);
      }
    }
  }

  /** The test-id part taken from a card title. */
  function Slug(title: string): (r: string)
    ensures NoSpace(r) && NoUpper(r)
    ensures |r| <= |title|
  {
    CollapseClean(ToLower(title));
    CollapseSpaces(ToLower(title))
  }

  /**
   * An independent reading of the replacement: scan left to right, write `-`
   * at the first whitespace character of a run and nothing for the rest of
   * it, and copy every other character.
   */
  function Scan(s: string, inRun: bool): (r: string)
    decreases |s|
  {
    if s == [] then []
    else if IsSpace(s[0]) then (if inRun then "" else "-") + Scan(s[1..], true)
    else [s[0]] + Scan(s[1..], false)
  }

  /** Inside a run, the scan ignores the rest of the run. */
  lemma {:induction false} ScanInRun(s: string)
    ensures Scan(s, true) == Scan(TrimStart(s), false)
    decreases |s|
  {
    if s != [] && IsSpace(s[0]) {
      ScanInRun(s[1..]);
    }
  }

  lemma {:induction false} CollapseIsScan(s: string)
    ensures CollapseSpaces(s) == Scan(s, false)
    decreases |s|
  {
    if s != [] {
      if IsSpace(s[0]) {
        CollapseIsScan(TrimStart(s[1..]));
        ScanInRun(s[1..]);
      } else {
        CollapseIsScan(s[1..]);
      }
    }
  }

  /** The slug is the lowercased title, scanned run by run. */
  lemma SlugIsScan(title: string)
    ensures Slug(title) == Scan(ToLower(title), false)
  {
    CollapseIsScan(ToLower(title));
  }

  /** Without whitespace there is nothing to replace. */
  lemma {:induction false} CollapseNoSpace(s: string)
    requires NoSpace(s)
    ensures CollapseSpaces(s) == s
    decreases |s|
  {
    if s != [] {
      assert NoSpace(s[1..]) by {
        forall k | 0 <= k < |s[1..]| ensures !IsSpace(s[1..][k]) {
          assert s[1..][k] == s[k + 1];
        }
      }
      CollapseNoSpace(s[1..]);
    }
  }

  /** A slug is its own slug. */
  lemma SlugIdempotent(title: string)
    ensures Slug(Slug(title)) == Slug(title)
  {
    var s := Slug(title);
    assert ToLower(s) == s;
    CollapseNoSpace(s);
  }

  /** A word without whitespace is copied in front of what follows it. */
  lemma {:induction false} CollapseWord(w: string, rest: string)
    requires NoSpace(w)
    ensures CollapseSpaces(w + rest) == w + CollapseSpaces(rest)
    decreases |w|
  {
    if w == [] {
      assert w + rest == rest;
    } else {
      var s := w + rest;
      assert s[0] == w[0] && !IsSpace(s[0]);
      assert s[1..] == w[1..] + rest;
      assert NoSpace(w[1..]) by {
        forall k | 0 <= k < |w[1..]| ensures !IsSpace(w[1..][k]) {
          assert w[1..][k] == w[k + 1];
        }
      }
      CollapseWord(w[1..], rest);
      assert CollapseSpaces(s) == [w[0]] + (w[1..] + CollapseSpaces(rest));
      assert [w[0]] + w[1..] == w;
    }
  }

  /** One space in front of a word becomes one `-`. */
  lemma CollapseLeadingSpace(b: string)
    requires NoSpace(b)
    ensures CollapseSpaces(" " + b) == "-" + b
  {
    var s := " " + b;
    assert IsSpace(s[0]) && s[1..] == b;
    assert TrimStart(b) == b by {
      if b != [] {
        assert !IsSpace(b[0]);
      }
    }
    CollapseNoSpace(b);
  }

  /** Two words separated by one space slug to the words joined by `-`. */
  lemma CollapseTwoWords(a: string, b: string)
    requires NoSpace(a) && NoSpace(b)
    ensures CollapseSpaces(a + " " + b) == a + "-" + b
  {
    var rest := " " + b;
    assert a + " " + b == a + rest;
    CollapseWord(a, rest);
    CollapseLeadingSpace(b);
    assert a + ("-" + b) == a + "-" + b;
  }

  // ---------------------------------------------------------------------
  // The statistic cards

  /** What a card shows: a count, or the backend's average (its formatting is not modelled). */
  datatype CardValue = Count(n: int) | AverageGrade(reported: Option<real>)

  datatype StatCard = StatCard(title: string, value: CardValue)

  const Titles: seq<string> := ["Total Students", "Active Courses", "Total Enrollments", "Average Grade"]

  /** `statsCards`: the four cards, in display order. */
  function StatsCards(stats: Option<DashboardStats>): (cards: seq<StatCard>)
    ensures |cards| == 4
    ensures forall i :: 0 <= i < 4 ==> cards[i].title == Titles[i]
  {
    [ StatCard(Titles[0], Count(CountOrZero(stats, TotalStudents))),
      StatCard(Titles[1], Count(CountOrZero(stats, ActiveCourses))),
      StatCard(Titles[2], Count(CountOrZero(stats, TotalEnrollments))),
      StatCard(Titles[3], AverageGrade(if stats.Some? then stats.value.averageGrade else None)) ]
  }

  /** The three counting cards show the backend's counter, or 0 when it is missing or 0. */
  lemma CardCounts(stats: Option<DashboardStats>)
    ensures var cards := StatsCards(stats);
            cards[0].value == Count(CountOrZero(stats, TotalStudents))
            && cards[1].value == Count(CountOrZero(stats, ActiveCourses))
            && cards[2].value == Count(CountOrZero(stats, TotalEnrollments))
    ensures stats.None? ==> forall i :: 0 <= i < 3 ==> StatsCards(stats)[i].value == Count(0)
  {
  }

  /** `card-<slug>`, the test id of a card. */
  function CardTestId(title: string): (r: string)
    ensures |r| == 5 + |Slug(title)| && r[..5] == "card-" && r[5..] == Slug(title)
    ensures NoSpace(r) && NoUpper(r)
  {
    "card-" + Slug(title)
  }

  /** `text-<slug>`, the test id of a card's value. */
  function ValueTestId(title: string): (r: string)
    ensures |r| == 5 + |Slug(title)| && r[..5] == "text-" && r[5..] == Slug(title)
    ensures NoSpace(r) && NoUpper(r)
  {
    "text-" + Slug(title)
  }

  /** A title made of two words and one space slugs to the two words joined by `-`. */
  lemma SlugTwoWords(title: string, a: string, b: string)
    requires |title| == |a| + 1 + |b|
    requires forall k :: 0 <= k < |title| ==> LowerChar(title[k]) == (a + " " + b)[k]
    requires NoSpace(a) && NoSpace(b)
    ensures Slug(title) == a + "-" + b
  {
    assert ToLower(title) == a + " " + b;
    CollapseTwoWords(a, b);
  }

  lemma TotalStudentsSlug(title: string)
    requires title == "Total Students"
    ensures Slug(title) == "total-students"
  {
    var a, b := "total", "students";
    SlugTwoWords(title, a, b);
  }

  lemma ActiveCoursesSlug(title: string)
    requires title == "Active Courses"
    ensures Slug(title) == "active-courses"
  {
    var a, b := "active", "courses";
    SlugTwoWords(title, a, b);
  }

  lemma TotalEnrollmentsSlug(title: string)
    requires title == "Total Enrollments"
    ensures Slug(title) == "total-enrollments"
  {
    var a, b := "total", "enrollments";
    SlugTwoWords(title, a, b);
  }

  lemma AverageGradeSlug(title: string)
    requires title == "Average Grade"
    ensures Slug(title) == "average-grade"
  {
    var a, b := "average", "grade";
    SlugTwoWords(title, a, b);
  }

  /** The slugs of the four titles, in card order. */
  const TitleSlugs: seq<string> := ["total-students", "active-courses", "total-enrollments", "average-grade"]

  /** The four titles give the slugs of the test ids the page renders. */
  lemma TitlesSlugged(i: int)
    requires 0 <= i < 4
    ensures Slug(Titles[i]) == TitleSlugs[i]
  {
    var title := Titles[i];
    if i == 0 {
      TotalStudentsSlug(title);
    } else if i == 1 {
      ActiveCoursesSlug(title);
    } else if i == 2 {
      TotalEnrollmentsSlug(title);
    } else {
      AverageGradeSlug(title);
    }
  }

  /** The four slugs differ pairwise. */
  lemma TitleSlugsDistinct(i: int, j: int)
    requires 0 <= i < j < 4
    ensures TitleSlugs[i] != TitleSlugs[j]
  {
    var x, y := TitleSlugs[i], TitleSlugs[j];
    assert x[0] != y[0] || |x| != |y|;
  }

  /** Putting the same prefix in front keeps two strings apart. */
  lemma PrefixKeepsApart(p: string, x: string, y: string)
    requires x != y
    ensures p + x != p + y
  {
    assert (p + x)[|p|..] == x && (p + y)[|p|..] == y;
  }

  /** No two cards share a test id, whatever the statistics. */
  lemma CardTestIdsDistinct(stats: Option<DashboardStats>, i: int, j: int)
    requires 0 <= i < j < |StatsCards(stats)|
    ensures CardTestId(StatsCards(stats)[i].title) != CardTestId(StatsCards(stats)[j].title)
    ensures ValueTestId(StatsCards(stats)[i].title) != ValueTestId(StatsCards(stats)[j].title)
  {
    var cards := StatsCards(stats);
    var ti, tj := cards[i].title, cards[j].title;
    TitlesSlugged(i);
    TitlesSlugged(j);
    TitleSlugsDistinct(i, j);
    PrefixKeepsApart("card-", Slug(ti), Slug(tj));
    PrefixKeepsApart("text-", Slug(ti), Slug(tj));
  }
}
