/** The pure parts of the deck: the theme filter of `filterByTheme`
    (newtab.js:191-194), the circular index arithmetic of `nextPrompt` and
    `prevPrompt` (newtab.js:204, 219), and the background colour index of
    `updateBackgroundColor` (newtab.js:250). */
module Deck {
  import opened Feed

  /** The selector value that means "no filter". */
  const AllThemes := "all"

  /** `prompts.filter(p => p.theme === theme)`. */
  function ThemeFilter(ps: seq<Prompt>, theme: string): (r: seq<Prompt>)
    ensures |r| <= |ps|
    ensures forall i :: 0 <= i < |r| ==> r[i].theme == theme
  {
    if ps == [] then []
    else (if ps[0].theme == theme then [ps[0]] else []) + ThemeFilter(ps[1..], theme)
  }

  /** The view `filterByTheme` selects: a copy of the whole deck for
      "all", otherwise the records of the chosen theme. */
  function Selection(ps: seq<Prompt>, theme: string): (view: seq<Prompt>)
    ensures theme == AllThemes ==> view == ps
    ensures theme != AllThemes ==> forall i :: 0 <= i < |view| ==> view[i].theme == theme
    ensures |view| <= |ps|
  {
    if theme == AllThemes then ps else ThemeFilter(ps, theme)
  }

  /** `sub` is `s` with some elements left out and the rest kept in order. */
  predicate IsSubsequence<T(==)>(sub: seq<T>, s: seq<T>)
  {
    if sub == [] then true
    else if s == [] then false
    else if sub[0] == s[0] then IsSubsequence(sub[1..], s[1..])
    else IsSubsequence(sub, s[1..])
  }

  /** The filter keeps the order of the deck. */
  lemma {:induction false} ThemeFilterSubsequence(ps: seq<Prompt>, theme: string)
    ensures IsSubsequence(ThemeFilter(ps, theme), ps)
  {
    if ps != [] {
      ThemeFilterSubsequence(ps[1..], theme);
      var r := ThemeFilter(ps, theme);
      if ps[0].theme == theme {
        assert r[0] == ps[0] && r[1..] == ThemeFilter(ps[1..], theme);
      } else {
        assert r == ThemeFilter(ps[1..], theme);
      }
    }
  }

  /** The filter keeps every record of the theme, as often as the deck
      holds it, and no other record. */
  lemma {:induction false} ThemeFilterCount(ps: seq<Prompt>, theme: string, p: Prompt)
    ensures multiset(ThemeFilter(ps, theme))[p] == if p.theme == theme then multiset(ps)[p] else 0
  {
    if ps != [] {
      ThemeFilterCount(ps[1..], theme, p);
      assert ps == [ps[0]] + ps[1..];
    }
  }

  /** A record is in the filtered view exactly when it is in the deck and
      has the theme. */
  lemma ThemeFilterMember(ps: seq<Prompt>, theme: string, p: Prompt)
    ensures p in ThemeFilter(ps, theme) <==> p in ps && p.theme == theme
  {
    ThemeFilterCount(ps, theme, p);
  }

  /** Filtering twice by the same theme is filtering once. */
  lemma {:induction false} ThemeFilterIdempotent(ps: seq<Prompt>, theme: string)
    ensures ThemeFilter(ThemeFilter(ps, theme), theme) == ThemeFilter(ps, theme)
  {
    if ps != [] {
      ThemeFilterIdempotent(ps[1..], theme);
      var r := ThemeFilter(ps[1..], theme);
      if ps[0].theme == theme {
        assert ThemeFilter(ps, theme) == [ps[0]] + r;
        assert ([ps[0]] + r)[0] == ps[0];
        assert ([ps[0]] + r)[1..] == r;
        assert ThemeFilter([ps[0]] + r, theme) == [ps[0]] + ThemeFilter(r, theme);
      } else {
        assert ThemeFilter(ps, theme) == r;
      }
    }
  }

  /** The filter maps concatenation to concatenation. */
  lemma {:induction false} ThemeFilterAppend(a: seq<Prompt>, b: seq<Prompt>, theme: string)
    ensures ThemeFilter(a + b, theme) == ThemeFilter(a, theme) + ThemeFilter(b, theme)
  {
    if a == [] {
      assert a + b == b;
    } else {
      assert (a + b)[0] == a[0] && (a + b)[1..] == a[1..] + b;
      ThemeFilterAppend(a[1..], b, theme);
    }
  }

  /** Every record of a selected view comes from the deck, and has the
      selected theme unless the selection is "all". */
  lemma SelectionMember(ps: seq<Prompt>, theme: string, i: nat)
    requires i < |Selection(ps, theme)|
    ensures Selection(ps, theme)[i] in ps
    ensures theme != AllThemes ==> Selection(ps, theme)[i].theme == theme
  {
    if theme != AllThemes {
      ThemeFilterMember(ps, theme, Selection(ps, theme)[i]);
    }
  }

  /** The index after `nextPrompt`: one further on, wrapping to 0 after the
      last record. */
  function NextIndex(i: nat, n: nat): (j: nat)
    requires i < n
    ensures j < n
    ensures j == if i == n - 1 then 0 else i + 1
  {
    (i + 1) % n
  }

  /** The index after `prevPrompt`: one back, wrapping to the last record
      from 0. */
  function PrevIndex(i: nat, n: nat): (j: nat)
    requires i < n
    ensures j < n
  {
    if i == 0 then n - 1 else i - 1
  }

  /** Going back after going forward returns to the same record, and so does
      going forward after going back. */
  lemma PrevNextInverse(i: nat, n: nat)
    requires i < n
    ensures PrevIndex(NextIndex(i, n), n) == i
    ensures NextIndex(PrevIndex(i, n), n) == i
  {
  }

  /** The index after `k` calls of `nextPrompt`. */
  function NextTimes(i: nat, n: nat, k: nat): (j: nat)
    requires i < n
    ensures j < n
  {
    if k == 0 then i else NextIndex(NextTimes(i, n, k - 1), n)
  }

  /** Up to `n` calls of `nextPrompt` move `k` places round the circle. */
  lemma {:induction false} NextTimesShift(i: nat, n: nat, k: nat)
    requires i < n && k <= n
    ensures NextTimes(i, n, k) == if i + k < n then i + k else i + k - n
  {
    if k > 0 {
      NextTimesShift(i, n, k - 1);
    }
  }

  /** `n` calls of `nextPrompt` on a view of `n` records come back to the start. */
  lemma NextFullCircle(i: nat, n: nat)
    requires i < n
    ensures NextTimes(i, n, n) == i
  {
    NextTimesShift(i, n, n);
  }

  /** The six background classes, in order. */
  const BackgroundColours: seq<string> := ["bg-amber", "bg-teal", "bg-gray", "bg-blue", "bg-green", "bg-lavender"]

  /** `currentIndex % backgroundColors.length`: always a valid colour. */
  function ColourIndex(i: nat): (c: nat)
    ensures c < |BackgroundColours|
  {
    i % |BackgroundColours|
  }

  /** Moving forward by one changes the colour, except on wrapping from the
      last record to the first when the view length leaves a remainder of 1
      modulo six. */
  lemma NextChangesColour(i: nat, n: nat)
    requires i < n
    ensures ColourIndex(NextIndex(i, n)) == ColourIndex(i) <==> i == n - 1 && i % 6 == 0
  {
  }
}
