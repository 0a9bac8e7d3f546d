/** The tracker's in-memory list of projects (`self.projects`) and the steps
    of the detail window that read and change it: looking a project up by its
    PPM number, appending a new one, overwriting an edited one, removing a
    deleted one, and rebuilding the visible rows. */
module Store {
  import opened Common
  import opened Projects
  import opened Workflow
  import opened Search
  import opened Table

  /** Position of the first project whose PPM number is `id`. */
  function FirstWithId(ps: seq<Project>, id: string): (r: Option<nat>)
    ensures r.Some? ==> r.value < |ps| && ps[r.value].ppmNumber == id
    ensures r.Some? ==> forall j :: 0 <= j < r.value ==> ps[j].ppmNumber != id
    ensures r.None? <==> forall j :: 0 <= j < |ps| ==> ps[j].ppmNumber != id
  {
    if |ps| == 0 then None
    else if ps[0].ppmNumber == id then Some(0)
    else match FirstWithId(ps[1..], id)
      case None => None
      case Some(i) => Some(i + 1)
  }

  /** `ps` with the element at `k` taken out, the rest in order. */
  function Without(ps: seq<Project>, k: nat): (r: seq<Project>)
    requires k < |ps|
    ensures |r| == |ps| - 1
    ensures forall j :: 0 <= j < k ==> r[j] == ps[j]
    ensures forall j :: k <= j < |r| ==> r[j] == ps[j + 1]
  {
    ps[..k] + ps[k + 1..]
  }

  /** Removing one element removes exactly one copy of it. */
  lemma WithoutMultiset(ps: seq<Project>, k: nat)
    requires k < |ps|
    ensures multiset(Without(ps, k)) == multiset(ps) - multiset{ps[k]}
  {
    assert ps == ps[..k] + [ps[k]] + ps[k + 1..];
  }

  /** After a project is appended, looking its PPM number up finds the new
      record unless an earlier record already carries that number. */
  lemma {:induction false} FirstWithIdAfterAppend(ps: seq<Project>, p: Project)
    ensures FirstWithId(ps + [p], p.ppmNumber) ==
      (if FirstWithId(ps, p.ppmNumber).Some? then FirstWithId(ps, p.ppmNumber) else Some(|ps|))
  {
    if |ps| > 0 {
      assert (ps + [p])[1..] == ps[1..] + [p];
      FirstWithIdAfterAppend(ps[1..], p);
    }
  }

  /** A record whose stage is empty or one of the catalogue's names. */
  predicate WellFormed(p: Project)
  {
    p.currentStep == "" || p.currentStep in Steps
  }

  /** In a list of well-formed records every shown project has a progress,
      so rebuilding the list view never stops early. */
  lemma WellFormedShowsAll(ps: seq<Project>, term: string)
    requires forall j :: 0 <= j < |ps| ==> WellFormed(ps[j])
    ensures forall j :: 0 <= j < |Filter(ps, term)| ==> Progress(Filter(ps, term)[j].currentStep).Ok?
  {
    var shown := Filter(ps, term);
    forall j | 0 <= j < |shown|
      ensures Progress(shown[j].currentStep).Ok?
    {
      FilterExactly(ps, term, shown[j]);
    }
  }

  /** Overwriting the record found for `id` with one that keeps `id` leaves
      the lookup of `id` where it was. */
  lemma FirstWithIdAfterReplace(ps: seq<Project>, id: string, k: nat, updated: Project)
    requires FirstWithId(ps, id) == Some(k)
    requires updated.ppmNumber == id
    ensures FirstWithId(ps[k := updated], id) == Some(k)
  {
    assert ps[k := updated][k].ppmNumber == id;
  }

  /** A new record starts at stage "not started", and an empty search shows it. */
  lemma NewProjectNotStarted()
    ensures Progress(NewProject().currentStep) == Ok(0)
    ensures Matches(NewProject(), "")
  {
    MatchesEmptyTerm(NewProject());
  }

  /** `rows` are the rows of the first `|rows|` projects of `shown`, each
      labelled with that project's progress. */
  predicate RowsOf(rows: seq<Row>, shown: seq<Project>)
  {
    |rows| <= |shown|
    && forall j :: 0 <= j < |rows| ==>
         Progress(shown[j].currentStep).Ok?
         && rows[j] == RowOf(shown[j], Progress(shown[j].currentStep).value)
  }

  /** Rows built for a prefix of the shown projects are rows of all of them. */
  lemma RowsOfPrefix(rows: seq<Row>, seen: seq<Project>, shown: seq<Project>)
    requires RowsOf(rows, seen) && |rows| == |seen|
    requires |seen| <= |shown| && seen == shown[..|seen|]
    ensures RowsOf(rows, shown)
  {
  }

  /** Appending the row of one more project keeps rows and projects in step. */
  lemma RowsOfAppend(rows: seq<Row>, seen: seq<Project>, p: Project)
    requires RowsOf(rows, seen) && |rows| == |seen|
    requires Progress(p.currentStep).Ok?
    ensures RowsOf(rows + [RowOf(p, Progress(p.currentStep).value)], seen + [p])
  {
  }

  /** When the loop over `ps` stops at the matching project `ps[i]`, the rows
      already built are the rows of the projects shown before it, and it is the
      next project the list would have shown. */
  lemma RowsBeforeStop(ps: seq<Project>, i: nat, term: string, rows: seq<Row>)
    requires i < |ps| && Matches(ps[i], term)
    requires |rows| == |Filter(ps[..i], term)| && RowsOf(rows, Filter(ps[..i], term))
    ensures RowsOf(rows, Filter(ps, term))
    ensures |rows| < |Filter(ps, term)| && Filter(ps, term)[|rows|] == ps[i]
  {
    FilterStep(ps, i, term);
    FilterNext(ps, i, term);
    RowsOfPrefix(rows, Filter(ps[..i], term), Filter(ps, term));
  }

  class Tracker {
    /** The list of project records, in file order. */
    var projects: seq<Project>
    /** What the data file holds: the list as last written by `save_data`. */
    ghost var persisted: seq<Project>

    /** The tracker starts from the records `load_data` read (none when the
        data file does not exist). */
    constructor (loaded: seq<Project>)
      ensures projects == loaded && persisted == loaded
    {
      projects := loaded;
      persisted := loaded;
    }

    /** The generator lookup of the detail window: the first project whose
        PPM number equals `id`; `None` where `next` raises `StopIteration`. */
    method Lookup(id: string) returns (r: Option<nat>)
      ensures r.Some? ==> r.value < |projects| && projects[r.value].ppmNumber == id
      ensures r.Some? ==> forall j :: 0 <= j < r.value ==> projects[j].ppmNumber != id
      ensures r.None? <==> forall j :: 0 <= j < |projects| ==> projects[j].ppmNumber != id
      ensures r == FirstWithId(projects, id)
    {
      var i := 0;
      while i < |projects|
        invariant 0 <= i <= |projects|
        invariant forall j :: 0 <= j < i ==> projects[j].ppmNumber != id
      {
        if projects[i].ppmNumber == id {
          return Some(i);
        }
        i := i + 1;
      }
      return None;
    }

    /** Saving a new project: the record goes to the end of the list and the
        list is written out. */
    method Append(p: Project)
      modifies this
      ensures projects == old(projects) + [p]
      ensures |projects| == |old(projects)| + 1 && projects[|projects| - 1] == p
      ensures forall j :: 0 <= j < |old(projects)| ==> projects[j] == old(projects)[j]
      ensures persisted == projects
    {
      projects := projects + [p];
      persisted := projects;
    }

    /** Saving an edited project: every field of the record at `k` (the one
        `Lookup` found) is overwritten in place, and the list is written out. */
    method Replace(k: nat, updated: Project)
      requires k < |projects|
      modifies this
      ensures projects == old(projects)[k := updated]
      ensures |projects| == |old(projects)| && projects[k] == updated
      ensures forall j :: 0 <= j < |projects| && j != k ==> projects[j] == old(projects)[j]
      ensures persisted == projects
    {
      projects := projects[k := updated];
      persisted := projects;
    }

    /** The edit step of the detail window as a whole: the first record whose
        PPM number is `id` is found and then overwritten in place. When no
        record has `id` the window never opens (`next` raises), so nothing
        changes and nothing is written. */
    method Edit(id: string, updated: Project) returns (found: bool)
      modifies this
      ensures found <==> FirstWithId(old(projects), id).Some?
      ensures found ==> projects == old(projects)[FirstWithId(old(projects), id).value := updated]
      ensures found ==> persisted == projects
      ensures !found ==> projects == old(projects) && persisted == old(persisted)
    {
      var k := Lookup(id);
      if k.Some? {
        Replace(k.value, updated);
        found := true;
      } else {
        found := false;
      }
    }

    /** Deleting a project: `list.remove` takes out the first record equal to
        `p` and the list is written out; when no record equals `p`, `remove`
        raises, nothing changes and nothing is written. */
    method Remove(p: Project) returns (removed: bool)
      modifies this
      ensures removed <==> p in old(projects)
      ensures removed ==> IndexOf(old(projects), p).Some?
      ensures removed ==> projects == Without(old(projects), IndexOf(old(projects), p).value)
      ensures removed ==> multiset(projects) == multiset(old(projects)) - multiset{p}
      ensures removed ==> persisted == projects
      ensures !removed ==> projects == old(projects) && persisted == old(persisted)
    {
      match IndexOf(projects, p)
      case None =>
        removed := false;
      case Some(k) =>
        WithoutMultiset(projects, k);
        projects := Without(projects, k);
        persisted := projects;
        removed := true;
    }

    /** Rebuilding the list view for the search `term`: one row per matching
        project, in list order. A matching project whose stage is not in the
        catalogue makes `calculate_progress` raise; the rows inserted before it
        stay and the error is returned. */
    method UpdateTable(term: string) returns (rows: seq<Row>, failure: Option<StepError>)
      ensures RowsOf(rows, Filter(projects, term))
      ensures failure.None? ==> |rows| == |Filter(projects, term)|
      ensures failure.Some? ==> |rows| < |Filter(projects, term)|
      ensures failure.Some? ==> Progress(Filter(projects, term)[|rows|].currentStep) == Err(failure.value)
    {
      rows, failure := [], None;
      var i := 0;
      while i < |projects|
        invariant 0 <= i <= |projects|
        invariant |rows| == |Filter(projects[..i], term)|
        invariant RowsOf(rows, Filter(projects[..i], term))
      {
        var p := projects[i];
        FilterStep(projects, i, term);
        if Matches(p, term) {
          var progress := Progress(p.currentStep);
          if progress.Err? {
            RowsBeforeStop(projects, i, term, rows);
            failure := Some(progress.error);
            return;
          }
          RowsOfAppend(rows, Filter(projects[..i], term), p);
          rows := rows + [RowOf(p, progress.value)];
        }
        i := i + 1;
      }
      assert projects[..i] == projects;
    }
  }
}
