/** A drawing's document: the revision map, edited and settled in place
    (`packages/plugin/src/excalidraw-model.ts`). */
module DrawingDoc {
  import opened Json
  import opened DrawingMerge
  import opened DrawingModel
  import opened DrawingSettle

  /** What a pass did: losing versions kept as copies, converged, and superseded ones removed. */
  datatype Report = Report(kept: set<Element>, converged: set<Element>, pruned: set<Element>)

  function ReportWith(report: Report, v: Verdict, e: Element): Report {
    match v
    case Superseded => report.(pruned := report.pruned + {e})
    case Converged(_) => report.(converged := report.converged + {e})
    case Kept(_) => report.(kept := report.kept + {e})
    case _ => report
  }

  /** The report of settling these versions. */
  ghost function ReportOf(trace: seq<Act>): Report {
    if trace == [] then Report({}, {}, {})
    else ReportWith(ReportOf(trace[..|trace| - 1]), trace[|trace| - 1].verdict, trace[|trace| - 1].e)
  }

  /** The report says of a settled version what became of it. */
  ghost predicate ReportsRight(s: Settler, before: Revs, report: Report, e: Element) {
    && (e in report.kept <==> e in before && VerdictOn(s, before, e).Kept?)
    && (e in report.converged <==> e in before && VerdictOn(s, before, e).Converged?)
    && (e in report.pruned <==> e in before && VerdictOn(s, before, e).Superseded?)
  }

  lemma {:induction false} ReportHolds(trace: seq<Act>, e: Element)
    ensures e in ReportOf(trace).kept <==> exists i | 0 <= i < |trace| :: trace[i].e == e && trace[i].verdict.Kept?
    ensures e in ReportOf(trace).converged <==>
        exists i | 0 <= i < |trace| :: trace[i].e == e && trace[i].verdict.Converged?
    ensures e in ReportOf(trace).pruned <==>
        exists i | 0 <= i < |trace| :: trace[i].e == e && trace[i].verdict.Superseded?
  {
    if trace != [] {
      var n := |trace| - 1;
      ReportHolds(trace[..n], e);
      assert forall i | 0 <= i < n :: trace[..n][i] == trace[i];
    }
  }

  /** Not a higher version; nor, of one version, a lower nonce; nor, of one nonce, a lower text. */
  predicate IsNoHigher(e: Element, w: Element) {
    && e.version <= w.version && (e.version == w.version ==> e.nonce >= w.nonce)
    && (e.version == w.version && e.nonce == w.nonce && e != w ==> Less(Canonical(Whole(w)), Canonical(Whole(e))))
  }

  class Drawing {
    var revs: Revs

    constructor ()
      ensures revs == map[]
    {
      revs := map[];
    }

    /** Bring an edit in, as a diff from `base`. */
    method Apply(els: seq<Element>, base: seq<BaseElement>)
      modifies this
      ensures revs == Applied(old(revs), els, base)
    {
      var baseById := ById(base);
      var at := 0;
      while at < |els|
        invariant at <= |els|
        invariant revs == ApplyFirst(old(revs), els, at, baseById)
      {
        ApplyElement(els[at], at, BaseFor(baseById, els[at].id));
        at := at + 1;
      }
    }

    /** One element of an edit: written unless it is there already, and its base removed if it supersedes it. */
    method ApplyElement(el: Element, at: nat, was: Option<BaseElement>)
      modifies this
      ensures revs == ApplyOne(old(revs), el, at, was)
    {
      if Passed(el, was) {
        return;
      }
      if el !in revs {
        revs := revs[el := MetaFor(was, at)];
      }
      if Supersedes(el, was) && was.value.el in revs {
        revs := revs - {was.value.el};
      }
    }

    /** The standing version of every element. */
    method Read() returns (winners: map<string, Element>)
      ensures winners.Keys == Ids(revs)
      ensures forall id | id in winners :: winners[id].id == id && Stands(winners[id], revs)
      ensures forall e | e in revs :: e.id in winners && IsNoHigher(e, winners[e.id])
    {
      winners := map[];
      var ids := Ids(revs);
      while ids != {}
        invariant ids <= Ids(revs)
        invariant winners.Keys == Ids(revs) - ids
        invariant forall id | id in winners :: winners[id].id == id && Stands(winners[id], revs)
        decreases |ids|
      {
        var id :| id in ids;
        var _, w := VersionsAndWinner(revs, id);
        winners := winners[id := w];
        ids := ids - {id};
      }
      forall e | e in revs
        ensures e.id in winners && IsNoHigher(e, winners[e.id])
      {
        TopIsLowest(winners[e.id], VersionsOf(revs, e.id), e);
      }
    }

    /** One pass over the elements with rival versions. `place` says where a kept copy is drawn,
        among what is live as it is drawn. */
    method Settle(s: Settler, place: (Element, Element, set<Element>, bool) -> Spot)
      returns (report: Report, ghost plan: Plan)
      modifies this
      ensures Settled(s, old(revs), plan, revs)
      ensures forall e :: ReportsRight(s, old(revs), report, e)
    {
      var before := revs;
      var ids := Ids(before);
      ghost var trace: seq<Act> := [];
      report := Report({}, {}, {});
      while ids != {}
        invariant ids <= Ids(before)
        invariant IsTrace(s, before, trace) && revs == Run(before, trace) && report == ReportOf(trace)
        invariant forall e :: e in Elements(trace) <==> e in before && e.id !in ids
        decreases |ids|
      {
        var id :| id in ids;
        ids := ids - {id};
        report, trace := SettleElement(s, place, before, id, report, trace);
      }
      plan := PlanOf(trace);
      PassEnds(s, before, trace, report);
    }

    /** Settle the versions of one element: all but the one that stands. */
    method SettleElement(s: Settler, place: (Element, Element, set<Element>, bool) -> Spot, before: Revs, id: string,
                         was: Report, ghost settled: seq<Act>)
      returns (report: Report, ghost trace: seq<Act>)
      requires IsTrace(s, before, settled) && revs == Run(before, settled) && was == ReportOf(settled)
      requires id in Ids(before) && Elements(settled) !! VersionsOf(before, id)
      modifies this
      ensures IsTrace(s, before, trace) && revs == Run(before, trace) && report == ReportOf(trace)
      ensures Elements(trace) == Elements(settled) + VersionsOf(before, id)
    {
      report, trace := was, settled;
      var list, winner := VersionsAndWinner(before, id);
      var i := 0;
      while i < |list|
        invariant i <= |list|
        invariant IsTrace(s, before, trace) && revs == Run(before, trace) && report == ReportOf(trace)
        invariant Elements(trace) == Elements(settled) + Firsts(list, i)
      {
        NextOf(list, i, VersionsOf(before, id));
        report, trace := SettleNext(s, place, before, winner, list[i], report, trace);
        i := i + 1;
      }
      AllOf(list, VersionsOf(before, id));
    }

    method SettleNext(s: Settler, place: (Element, Element, set<Element>, bool) -> Spot, before: Revs,
                      winner: Element, e: Element, was: Report, ghost settled: seq<Act>)
      returns (report: Report, ghost trace: seq<Act>)
      requires IsTrace(s, before, settled) && revs == Run(before, settled) && was == ReportOf(settled)
      requires e in before && winner == Standing(before, e.id) && e !in Elements(settled)
      modifies this
      ensures IsTrace(s, before, trace) && revs == Run(before, trace) && report == ReportOf(trace)
      ensures Elements(trace) == Elements(settled) + {e}
    {
      ghost var act := SettleVersion(s, place, before, winner, e);
      trace := settled + [act];
      TraceOne(s, before, settled, act);
      assert trace[..|settled|] == settled;
      report := ReportWith(was, Judge(s, before, winner, e), e);
    }

    /** Settle one version: removed, with a delete said again or a kept copy written, as its verdict says. */
    method SettleVersion(s: Settler, place: (Element, Element, set<Element>, bool) -> Spot, before: Revs,
                         winner: Element, e: Element)
      returns (ghost act: Act)
      requires e in before && winner == Standing(before, e.id)
      modifies this
      ensures IsActOn(s, before, act) && act.e == e && revs == After(old(revs), act)
    {
      ghost var spot := Carry(s, place, before, winner, e);
      act := Act(e, Judge(s, before, winner, e), WrittenFor(s, before, winner, e, spot));
      assert IsWritingFor(s, before, e, act.written);
    }

    method Carry(s: Settler, place: (Element, Element, set<Element>, bool) -> Spot, before: Revs,
                 winner: Element, e: Element)
      returns (spot: Spot)
      requires e in before && winner in before
      modifies this
      ensures !Goes(Judge(s, before, winner, e)) ==> revs == old(revs)
      ensures Goes(Judge(s, before, winner, e)) ==>
          revs == Replace(old(revs), e, WrittenFor(s, before, winner, e, spot))
    {
      spot := NOWHERE;
      var verdict := Judge(s, before, winner, e);
      if !Goes(verdict) {
        return;
      }
      match verdict {
        case SaidAgain =>
          Write(Again(s, winner, e), AgainMeta(before, winner, e));
        case Kept(_) =>
          spot := WriteCopy(s, place, winner, e);
        case _ =>
      }
      revs := revs - {e};
    }

    method WriteCopy(s: Settler, place: (Element, Element, set<Element>, bool) -> Spot, winner: Element, e: Element)
      returns (spot: Spot)
      modifies this
      ensures revs == PartsMap(KeptParts(e, s.ids(e), spot)) + old(revs)
    {
      var live := Live();
      spot := place(e, winner, live, s.fill(e));
      WriteParts(KeptParts(e, s.ids(e), spot));
    }

    /** Write a revision, unless it is there. */
    method Write(e: Element, meta: Meta)
      modifies this
      ensures revs == map[e := meta] + old(revs)
    {
      if e !in revs {
        revs := revs[e := meta];
      }
    }

    method WriteParts(parts: seq<Element>)
      modifies this
      ensures revs == PartsMap(parts) + old(revs)
    {
      var i := 0;
      while i < |parts|
        invariant i <= |parts|
        invariant revs == PartsMap(parts[..i]) + old(revs)
      {
        Write(parts[i], NO_META);
        assert parts[..i + 1] == parts[..i] + [parts[i]];
        i := i + 1;
      }
      assert parts[..i] == parts;
    }

    /** The live elements of the drawing as it reads now. */
    method Live() returns (live: set<Element>)
      ensures forall e :: e in live <==> Stands(e, revs) && !ReadsDeleted(e)
    {
      var winners := Read();
      live := set id | id in winners && !ReadsDeleted(winners[id]) :: winners[id];
      forall e | Stands(e, revs)
        ensures e.id in winners && winners[e.id] == e
      {
        assert e in revs;
        StandingUnique(e, winners[e.id], revs);
      }
    }
  }

  /** Every version of one element, each once, and the one that stands. */
  method VersionsAndWinner(revs: Revs, id: string) returns (list: seq<Element>, winner: Element)
    requires id in Ids(revs)
    ensures forall e :: e in list <==> e in VersionsOf(revs, id)
    ensures forall i, j | 0 <= i < j < |list| :: list[i] != list[j]
    ensures winner == Standing(revs, id)
  {
    list := Listed(VersionsOf(revs, id));
    var e0 :| e0 in revs && e0.id == id;
    assert e0 in list;
    assert (set v | v in list) == VersionsOf(revs, id);
    winner := WinnerOf(list);
    StandingUnique(winner, Standing(revs, id), revs);
  }

  ghost function Firsts(list: seq<Element>, n: nat): set<Element>
    requires n <= |list|
  {
    set i | 0 <= i < n :: list[i]
  }

  lemma NextOf(list: seq<Element>, i: nat, all: set<Element>)
    requires i < |list| && (forall e :: e in list <==> e in all)
    requires forall i, j | 0 <= i < j < |list| :: list[i] != list[j]
    ensures list[i] in all && list[i] !in Firsts(list, i) && Firsts(list, i + 1) == Firsts(list, i) + {list[i]}
  {
  }

  lemma AllOf(list: seq<Element>, all: set<Element>)
    requires forall e :: e in list <==> e in all
    ensures Firsts(list, |list|) == all
  {
  }

  lemma PassEnds(s: Settler, before: Revs, trace: seq<Act>, report: Report)
    requires IsTrace(s, before, trace) && report == ReportOf(trace) && Elements(trace) == before.Keys
    ensures Settled(s, before, PlanOf(trace), Run(before, trace))
    ensures forall e :: ReportsRight(s, before, report, e)
  {
    TraceSettles(s, before, trace);
    TraceHolds(s, before, trace);
    forall e
      ensures ReportsRight(s, before, report, e)
    {
      ReportHolds(trace, e);
      assert e in before ==> e in Elements(trace);
    }
  }

  /** A set's elements in some order. */
  method Listed(s: set<Element>) returns (list: seq<Element>)
    ensures forall e :: e in list <==> e in s
    ensures forall i, j | 0 <= i < j < |list| :: list[i] != list[j]
  {
    list := [];
    var rest := s;
    while rest != {}
      invariant rest <= s
      invariant forall i, j | 0 <= i < j < |list| :: list[i] != list[j]
      invariant forall e :: e in list <==> e in s && e !in rest
      decreases |rest|
    {
      var e :| e in rest;
      list := list + [e];
      rest := rest - {e};
    }
  }
}
