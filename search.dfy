/** The search box of the project list: a case-insensitive substring test on
    three fields of a project, and the projects it keeps, in list order. */
module Search {
  import opened Projects

  /** Lower-casing of one character (ASCII letters only): a capital becomes
      the small letter 32 code points above it, anything else is kept. */
  function LowerChar(c: char): (r: char)
    ensures !('A' <= r <= 'Z')
    ensures 'A' <= c <= 'Z' ==> 'a' <= r <= 'z' && r as int == c as int + 32
    ensures !('A' <= c <= 'Z') ==> r == c
  {
    if 'A' <= c <= 'Z' then (c as int - 'A' as int + 'a' as int) as char else c
  }

  /** `s.lower()`: every character lower-cased, the length unchanged. */
  function Lower(s: string): (r: string)
    ensures |r| == |s|
    ensures forall i :: 0 <= i < |s| ==> r[i] == LowerChar(s[i])
    ensures forall i :: 0 <= i < |r| ==> !('A' <= r[i] <= 'Z')
  {
    seq(|s|, i requires 0 <= i < |s| => LowerChar(s[i]))
  }

  /** `c` and `d` are the same letter in either case, or the same character. */
  predicate SameIgnoringCase(c: char, d: char)
  {
    c == d
    || ('a' <= c <= 'z' && c as int - d as int == 32)
    || ('a' <= d <= 'z' && d as int - c as int == 32)
  }

  /** Two characters lower-case alike exactly when they differ at most in case. */
  lemma LowerCharSameIgnoringCase(c: char, d: char)
    ensures LowerChar(c) == LowerChar(d) <==> SameIgnoringCase(c, d)
  {
  }

  /** Two strings of the same length that differ at most in case, position by position. */
  predicate SameTextIgnoringCase(s: string, t: string)
  {
    |s| == |t| && forall i :: 0 <= i < |s| ==> SameIgnoringCase(s[i], t[i])
  }

  /** Two strings lower-case alike exactly when they differ at most in case. */
  lemma LowerSameTextIgnoringCase(s: string, t: string)
    ensures Lower(s) == Lower(t) <==> SameTextIgnoringCase(s, t)
  {
    if |s| == |t| {
      forall i | 0 <= i < |s|
        ensures Lower(s)[i] == Lower(t)[i] <==> SameIgnoringCase(s[i], t[i])
      {
        LowerCharSameIgnoringCase(s[i], t[i]);
      }
      if SameTextIgnoringCase(s, t) {
        assert forall i :: 0 <= i < |s| ==> Lower(s)[i] == Lower(t)[i];
      }
    }
  }

  /** Lower-casing twice is lower-casing once. */
  lemma LowerIdempotent(s: string)
    ensures Lower(Lower(s)) == Lower(s)
  {
    var l := Lower(s);
    assert forall i :: 0 <= i < |l| ==> Lower(l)[i] == l[i];
  }

  /** Lower-casing commutes with taking a slice. */
  lemma LowerSlice(s: string, i: nat, j: nat)
    requires i <= j <= |s|
    ensures Lower(s)[i..j] == Lower(s[i..j])
  {
  }

  /** `t` occurs in `s` starting at position `i`. */
  ghost predicate OccursAt(t: string, s: string, i: nat)
  {
    i + |t| <= |s| && s[i..i + |t|] == t
  }

  /** Python's `t in s` for strings: `t` is a contiguous part of `s`. */
  function Occurs(t: string, s: string): (r: bool)
    ensures r <==> exists i: nat :: OccursAt(t, s, i)
    decreases |s|
  {
    if |t| > |s| then false
    else if s[..|t|] == t then
      assert OccursAt(t, s, 0);
      true
    else
      OccursShift(t, s);
      Occurs(t, s[1..])
  }

  /** Occurrences in `s` past the first position are the occurrences in `s[1..]`. */
  lemma OccursShift(t: string, s: string)
    requires |t| <= |s| && s[..|t|] != t
    ensures (exists i: nat :: OccursAt(t, s, i)) <==> (exists i: nat :: OccursAt(t, s[1..], i))
  {
    forall i: nat | OccursAt(t, s, i)
      ensures i >= 1 && OccursAt(t, s[1..], i - 1)
    {
      assert i != 0;
      assert s[1..][i - 1..i - 1 + |t|] == s[i..i + |t|];
    }
    forall i: nat | OccursAt(t, s[1..], i)
      ensures OccursAt(t, s, i + 1)
    {
      assert s[1..][i..i + |t|] == s[i + 1..i + 1 + |t|];
    }
  }

  /** The search filter of `update_table`: the lower-cased term occurs in the
      lower-cased PPM number, title or point of contact. */
  predicate Matches(p: Project, term: string): (r: bool)
    ensures r <==> ((exists i: nat :: OccursAt(Lower(term), Lower(p.ppmNumber), i))
                    || (exists i: nat :: OccursAt(Lower(term), Lower(p.title), i))
                    || (exists i: nat :: OccursAt(Lower(term), Lower(p.contact), i)))
  {
    var q := Lower(term);
    Occurs(q, Lower(p.ppmNumber)) || Occurs(q, Lower(p.title)) || Occurs(q, Lower(p.contact))
  }

  /** An empty search box shows every project. */
  lemma MatchesEmptyTerm(p: Project)
    ensures Matches(p, "")
  {
    assert OccursAt("", Lower(p.ppmNumber), 0);
  }

  /** The search ignores the case of the term. */
  lemma MatchesIgnoresTermCase(p: Project, term: string)
    ensures Matches(p, term) == Matches(p, Lower(term))
  {
    LowerIdempotent(term);
  }

  /** A field occurrence lifts to the lower-cased strings. */
  lemma OccursLower(t: string, s: string, i: nat)
    requires OccursAt(t, s, i)
    ensures OccursAt(Lower(t), Lower(s), i)
  {
    LowerSlice(s, i, i + |t|);
  }

  /** A term written inside the PPM number, title or contact, with the same
      letter case, finds the project. */
  lemma MatchesFieldOccurrence(p: Project, term: string, i: nat)
    requires OccursAt(term, p.ppmNumber, i) || OccursAt(term, p.title, i) || OccursAt(term, p.contact, i)
    ensures Matches(p, term)
  {
    if OccursAt(term, p.ppmNumber, i) {
      OccursLower(term, p.ppmNumber, i);
    } else if OccursAt(term, p.title, i) {
      OccursLower(term, p.title, i);
    } else {
      OccursLower(term, p.contact, i);
    }
  }

  /** The stretch of `s` at `i` spells `t` up to letter case. */
  predicate OccursAtIgnoringCase(t: string, s: string, i: nat)
  {
    i + |t| <= |s| && SameTextIgnoringCase(t, s[i..i + |t|])
  }

  /** A term that spells part of the PPM number, title or contact in another
      letter case (say "abc" inside "xABCx") still finds the project. */
  lemma MatchesIgnoresFieldCase(p: Project, term: string, i: nat)
    requires OccursAtIgnoringCase(term, p.ppmNumber, i)
      || OccursAtIgnoringCase(term, p.title, i)
      || OccursAtIgnoringCase(term, p.contact, i)
    ensures Matches(p, term)
  {
    var f := if OccursAtIgnoringCase(term, p.ppmNumber, i) then p.ppmNumber
      else if OccursAtIgnoringCase(term, p.title, i) then p.title
      else p.contact;
    LowerSameTextIgnoringCase(term, f[i..i + |term|]);
    LowerSlice(f, i, i + |term|);
    assert OccursAt(Lower(term), Lower(f), i);
  }

  /** The projects the list shows for `term`, in the order of `ps`. */
  function Filter(ps: seq<Project>, term: string): (r: seq<Project>)
    ensures |r| <= |ps|
  {
    if |ps| == 0 then []
    else
      var rest := Filter(ps[..|ps| - 1], term);
      if Matches(ps[|ps| - 1], term) then rest + [ps[|ps| - 1]] else rest
  }

  /** Appending a project to the list adds it at the end of what is shown
      when it matches, and changes nothing shown otherwise. */
  lemma FilterAfterAppend(ps: seq<Project>, p: Project, term: string)
    ensures Filter(ps + [p], term) == if Matches(p, term) then Filter(ps, term) + [p] else Filter(ps, term)
  {
    assert (ps + [p])[..|ps|] == ps;
  }

  /** One more project of the list is shown after the others exactly when it matches. */
  lemma FilterStep(ps: seq<Project>, i: nat, term: string)
    requires i < |ps|
    ensures Filter(ps[..i + 1], term) ==
      if Matches(ps[i], term) then Filter(ps[..i], term) + [ps[i]] else Filter(ps[..i], term)
  {
    assert ps[..i + 1][..i] == ps[..i];
  }

  /** Exactly the matching projects are shown. */
  lemma {:induction false} FilterExactly(ps: seq<Project>, term: string, p: Project)
    ensures p in Filter(ps, term) <==> p in ps && Matches(p, term)
  {
    if |ps| > 0 {
      var init := ps[..|ps| - 1];
      assert ps == init + [ps[|ps| - 1]];
      FilterExactly(init, term, p);
    }
  }

  /** Filtering a concatenation filters each part and keeps them in order:
      the filter never reorders projects. */
  lemma {:induction false} FilterAppend(a: seq<Project>, b: seq<Project>, term: string)
    ensures Filter(a + b, term) == Filter(a, term) + Filter(b, term)
  {
    if |b| > 0 {
      var ab := a + b;
      assert ab[..|ab| - 1] == a + b[..|b| - 1];
      FilterAppend(a, b[..|b| - 1], term);
    } else {
      assert a + b == a;
    }
  }

  /** What the list shows for a prefix of the projects is a prefix of what it
      shows for all of them. */
  lemma FilterPrefix(ps: seq<Project>, i: nat, term: string)
    requires i <= |ps|
    ensures |Filter(ps[..i], term)| <= |Filter(ps, term)|
    ensures Filter(ps[..i], term) == Filter(ps, term)[..|Filter(ps[..i], term)|]
  {
    assert ps == ps[..i] + ps[i..];
    FilterAppend(ps[..i], ps[i..], term);
  }

  /** When `ps[i]` is shown after the projects shown from `ps[..i]`, it is
      also the next project shown from the whole of `ps`. */
  lemma FilterNext(ps: seq<Project>, i: nat, term: string)
    requires i < |ps| && Filter(ps[..i + 1], term) == Filter(ps[..i], term) + [ps[i]]
    ensures |Filter(ps[..i], term)| < |Filter(ps, term)|
    ensures Filter(ps[..i], term) == Filter(ps, term)[..|Filter(ps[..i], term)|]
    ensures Filter(ps, term)[|Filter(ps[..i], term)|] == ps[i]
  {
    var seen, shown := Filter(ps[..i], term), Filter(ps, term);
    FilterPrefix(ps, i + 1, term);
    assert shown[..|seen| + 1] == seen + [ps[i]];
    assert shown[|seen|] == shown[..|seen| + 1][|seen|];
    assert (seen + [ps[i]])[..|seen|] == seen;
  }

  /** An empty search box keeps the whole list, in order. */
  lemma {:induction false} FilterEmptyTerm(ps: seq<Project>)
    ensures Filter(ps, "") == ps
  {
    if |ps| > 0 {
      FilterEmptyTerm(ps[..|ps| - 1]);
      MatchesEmptyTerm(ps[|ps| - 1]);
    }
  }
}
