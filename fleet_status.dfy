/** The fleet status refresh (loadLastPoints): for each device id, the
    latest reading is fetched and summarised, and the device is put in the
    transit, stopped or no-report group. The fetch is a parameter `fetch`
    giving the answer to the i-th request, which asks for a given id (two
    requests for the same id may be answered differently), `new Date(x)` is
    the parameter `toDate`, and the
    clock reading `Date.now()` is the parameter `now`. Markers, map bounds
    and the status panel are not modelled. */
module FleetStatus {
  import opened Text
  import opened Js
  import opened Timestamps
  import opened Readings
  import opened Wrappers

  /** Five hours, in milliseconds. */
  const StaleMs: int := 5 * 3600 * 1000

  /** The entry of `lastInfo` for one device. */
  datatype Info = Info(ev: Num, ts: Time, lat: Num, lon: Num, stale: bool)

  datatype Group = Transit | Stopped | NoReport | Ungrouped

  /** `isStale(ts.getTime())`: false for an Invalid Date, whose time is NaN. */
  predicate IsStale(ts: Time, now: int)
  {
    ts.At? && now - ts.ms >= StaleMs
  }

  /** The summary of one answer of the latest-reading request. */
  function InfoOf(js: Json, toDate: Json -> Time, now: int): (info: Info)
    ensures info.stale == IsStale(info.ts, now)
  {
    var d := Or(Get(js, "data"), Obj(map[]));
    var stamp := Or(Get(js, "timestamp"), Get(js, "ts"));
    var ts := if Truthy(stamp) then toDate(stamp) else At(now);
    var lat := ToNumber(Coalesce(Get(d, "la"), Coalesce(Get(d, "lat"), Int(0))));
    var lon := ToNumber(Coalesce(Get(d, "lo"), Coalesce(Get(d, "lon"), Int(0))));
    var ev := ToNumber(Coalesce(Get(d, "ev"), Coalesce(Get(d, "e"), Int(0))));
    Info(ev, ts, lat, lon, IsStale(ts, now))
  }

  /** The group a summary puts its device in. */
  function Classify(info: Info): (g: Group)
    ensures info.stale ==> g == NoReport
    ensures g == Transit <==> !info.stale && (info.ev == Fin(10.0) || info.ev == Fin(31.0))
    ensures g == Stopped <==> !info.stale && (info.ev == Fin(11.0) || info.ev == Fin(30.0))
    ensures g == NoReport <==> info.stale
  {
    if info.stale then NoReport
    else if info.ev == Fin(10.0) || info.ev == Fin(31.0) then Transit
    else if info.ev == Fin(11.0) || info.ev == Fin(30.0) then Stopped
    else Ungrouped
  }

  // ------------------------------------------------------------ specification

  /** One request of the refresh: the trimmed id asked for, and the summary
      of its answer (None when the request failed). */
  datatype Request = Request(id: string, answer: Option<Info>)

  function AnswerOf(reply: Reply, toDate: Json -> Time, now: int): Option<Info>
  {
    match reply
    case Threw => None
    case Returned(js) => Some(InfoOf(js, toDate, now))
  }

  /** The requests the refresh makes for `ids`, in order. */
  function Requests(ids: seq<string>, fetch: (nat, string) -> Reply, toDate: Json -> Time, now: int): (reqs: seq<Request>)
    ensures |reqs| == |ids|
    ensures forall k :: 0 <= k < |ids| ==> reqs[k].id == Trim(ids[k])
  {
    seq(|ids|, k requires 0 <= k < |ids| => Request(Trim(ids[k]), AnswerOf(fetch(k, Trim(ids[k])), toDate, now)))
  }

  /** `lastInfo` after the requests `reqs`: one entry per id whose request
      answered, the last answer winning. */
  function Loaded(reqs: seq<Request>): map<string, Info>
  {
    if reqs == [] then map[]
    else
      var prev := Loaded(reqs[..|reqs| - 1]);
      var r := reqs[|reqs| - 1];
      match r.answer
      case None => prev
      case Some(info) => prev[r.id := info]
  }

  /** `Array.from(set)` for the group `g`: the ids classified in `g`, in the
      order of their first addition. */
  function Members(reqs: seq<Request>, g: Group): seq<string>
  {
    if reqs == [] then []
    else
      var prev := Members(reqs[..|reqs| - 1], g);
      var r := reqs[|reqs| - 1];
      match r.answer
      case None => prev
      case Some(info) => if Classify(info) == g && r.id !in prev then prev + [r.id] else prev
  }

  /** The k-th request asked for `id` and was answered. */
  predicate Answered(reqs: seq<Request>, id: string, k: int)
  {
    0 <= k < |reqs| && reqs[k].id == id && reqs[k].answer.Some?
  }

  /** The k-th request is the last answered one for `id`. */
  predicate LastAnswered(reqs: seq<Request>, id: string, k: int)
  {
    Answered(reqs, id, k) && forall j :: k < j < |reqs| ==> !Answered(reqs, id, j)
  }

  /** Some answered request for `id` classifies into `g`. */
  predicate ClassifiedAs(reqs: seq<Request>, id: string, g: Group)
  {
    exists k :: 0 <= k < |reqs| && Answered(reqs, id, k) && Classify(reqs[k].answer.value) == g
  }

  /** All answered requests for `id` classify into the same group; true in
      particular when the id is asked for once. */
  predicate Consistent(reqs: seq<Request>, id: string)
  {
    forall j, k :: 0 <= j < |reqs| && 0 <= k < |reqs| && Answered(reqs, id, j) && Answered(reqs, id, k) ==>
      Classify(reqs[j].answer.value) == Classify(reqs[k].answer.value)
  }

  // ------------------------------------------------------------ the state

  class Fleet {
    var lastInfo: map<string, Info>
    var transitIds: seq<string>
    var stoppedIds: seq<string>
    var noReportIds: seq<string>

    constructor ()
      ensures lastInfo == map[] && transitIds == [] && stoppedIds == [] && noReportIds == []
    {
      lastInfo := map[];
      transitIds := [];
      stoppedIds := [];
      noReportIds := [];
    }

    /** loadLastPoints(ids). With no ids nothing changes; otherwise every
        group and `lastInfo` are rebuilt from the answers. */
    method LoadLastPoints(ids: seq<string>, fetch: (nat, string) -> Reply, toDate: Json -> Time, now: int)
      modifies this
      ensures ids == [] ==> lastInfo == old(lastInfo) && transitIds == old(transitIds)
                            && stoppedIds == old(stoppedIds) && noReportIds == old(noReportIds)
      ensures ids != [] ==> lastInfo == Loaded(Requests(ids, fetch, toDate, now))
      ensures ids != [] ==> transitIds == Members(Requests(ids, fetch, toDate, now), Transit)
      ensures ids != [] ==> stoppedIds == Members(Requests(ids, fetch, toDate, now), Stopped)
      ensures ids != [] ==> noReportIds == Members(Requests(ids, fetch, toDate, now), NoReport)
    {
      if ids == [] {
        return;
      }
      ghost var reqs := Requests(ids, fetch, toDate, now);
      lastInfo := map[];
      var transitSet: seq<string> := [];
      var stoppedSet: seq<string> := [];
      var noReportSet: seq<string> := [];
      var i := 0;
      while i < |ids|
        invariant 0 <= i <= |ids|
        invariant lastInfo == Loaded(reqs[..i])
        invariant transitSet == Members(reqs[..i], Transit)
        invariant stoppedSet == Members(reqs[..i], Stopped)
        invariant noReportSet == Members(reqs[..i], NoReport)
      {
        var id := Trim(ids[i]);
        var reply := fetch(i, id);
        assert reqs[i] == Request(id, AnswerOf(reply, toDate, now));
        LoadStep(reqs, i);
        MembersStep(reqs, i, Transit);
        MembersStep(reqs, i, Stopped);
        MembersStep(reqs, i, NoReport);
        if reply.Returned? {
          var info := InfoOf(reply.body, toDate, now);
          lastInfo := lastInfo[id := info];
          if info.stale {
            if id !in noReportSet { noReportSet := noReportSet + [id]; }
          } else if info.ev == Fin(10.0) || info.ev == Fin(31.0) {
            if id !in transitSet { transitSet := transitSet + [id]; }
          } else if info.ev == Fin(11.0) || info.ev == Fin(30.0) {
            if id !in stoppedSet { stoppedSet := stoppedSet + [id]; }
          }
        }
        i := i + 1;
      }
      assert reqs[..i] == reqs;
      transitIds := transitSet;
      stoppedIds := stoppedSet;
      noReportIds := noReportSet;
    }

    /** After a refresh each group holds each id once, and holds exactly the
        ids some answer classified into it. For an id whose answers agree
        (an id asked for once, in particular) the groups are disjoint and
        agree with the summary stored in `lastInfo`. */
    lemma GroupsAgree(ids: seq<string>, fetch: (nat, string) -> Reply, toDate: Json -> Time, now: int)
      requires lastInfo == Loaded(Requests(ids, fetch, toDate, now))
      requires transitIds == Members(Requests(ids, fetch, toDate, now), Transit)
      requires stoppedIds == Members(Requests(ids, fetch, toDate, now), Stopped)
      requires noReportIds == Members(Requests(ids, fetch, toDate, now), NoReport)
      ensures var reqs := Requests(ids, fetch, toDate, now);
              forall id :: (id in transitIds <==> ClassifiedAs(reqs, id, Transit))
                        && (id in stoppedIds <==> ClassifiedAs(reqs, id, Stopped))
                        && (id in noReportIds <==> ClassifiedAs(reqs, id, NoReport))
      ensures Distinct(transitIds) && Distinct(stoppedIds) && Distinct(noReportIds)
      ensures var reqs := Requests(ids, fetch, toDate, now);
              forall id :: Consistent(reqs, id) ==>
                && (id in transitIds <==> id in lastInfo && Classify(lastInfo[id]) == Transit)
                && (id in stoppedIds <==> id in lastInfo && Classify(lastInfo[id]) == Stopped)
                && (id in noReportIds <==> id in lastInfo && lastInfo[id].stale)
                && !(id in transitIds && id in stoppedIds)
                && !(id in transitIds && id in noReportIds)
                && !(id in stoppedIds && id in noReportIds)
    {
      var reqs := Requests(ids, fetch, toDate, now);
      MembersExact(reqs, Transit);
      MembersExact(reqs, Stopped);
      MembersExact(reqs, NoReport);
      forall id | Consistent(reqs, id)
        ensures && (id in transitIds <==> id in lastInfo && Classify(lastInfo[id]) == Transit)
                && (id in stoppedIds <==> id in lastInfo && Classify(lastInfo[id]) == Stopped)
                && (id in noReportIds <==> id in lastInfo && lastInfo[id].stale)
                && !(id in transitIds && id in stoppedIds)
                && !(id in transitIds && id in noReportIds)
                && !(id in stoppedIds && id in noReportIds)
      {
        StoredClassifies(reqs, id, Transit);
        StoredClassifies(reqs, id, Stopped);
        StoredClassifies(reqs, id, NoReport);
        OneGroup(reqs, id, Transit, Stopped);
        OneGroup(reqs, id, Transit, NoReport);
        OneGroup(reqs, id, Stopped, NoReport);
      }
    }
  }

  predicate Distinct(s: seq<string>)
  {
    forall i, j :: 0 <= i < j < |s| ==> s[i] != s[j]
  }

  // ------------------------------------------------------------ properties

  lemma LoadStep(reqs: seq<Request>, i: nat)
    requires i < |reqs|
    ensures Loaded(reqs[..i + 1])
         == match reqs[i].answer
            case None => Loaded(reqs[..i])
            case Some(info) => Loaded(reqs[..i])[reqs[i].id := info]
  {
    assert reqs[..i + 1][..i] == reqs[..i];
  }

  lemma MembersStep(reqs: seq<Request>, i: nat, g: Group)
    requires i < |reqs|
    ensures var prev := Members(reqs[..i], g);
            (Members(reqs[..i + 1], g)
             == match reqs[i].answer
                case None => prev
                case Some(info) => if Classify(info) == g && reqs[i].id !in prev then prev + [reqs[i].id] else prev)
  {
    assert reqs[..i + 1][..i] == reqs[..i];
  }

  /** `lastInfo` has an entry exactly for the ids some request answered, and
      that entry is the summary of the last answer for the id. */
  lemma {:induction false} LoadedEntries(reqs: seq<Request>)
    ensures forall id :: id in Loaded(reqs) <==> exists k :: Answered(reqs, id, k)
    ensures forall id :: id in Loaded(reqs) ==>
              exists k :: LastAnswered(reqs, id, k) && reqs[k].answer == Some(Loaded(reqs)[id])
  {
    if reqs != [] {
      var init := reqs[..|reqs| - 1];
      LoadedEntries(init);
      forall id
        ensures id in Loaded(reqs) <==> exists k :: Answered(reqs, id, k)
        ensures id in Loaded(reqs) ==>
                  exists k :: LastAnswered(reqs, id, k) && reqs[k].answer == Some(Loaded(reqs)[id])
      {
        AnsweredSnoc(reqs, id);
        LastAnswerSnoc(reqs, id);
      }
    }
  }

  lemma LastAnswerSnoc(reqs: seq<Request>, id: string)
    requires reqs != []
    requires var init := reqs[..|reqs| - 1];
             id in Loaded(init) ==> exists k :: LastAnswered(init, id, k) && init[k].answer == Some(Loaded(init)[id])
    ensures id in Loaded(reqs) ==> exists k :: LastAnswered(reqs, id, k) && reqs[k].answer == Some(Loaded(reqs)[id])
  {
    var init := reqs[..|reqs| - 1];
    var n := |reqs| - 1;
    if Answered(reqs, id, n) {
      assert LastAnswered(reqs, id, n);
    } else if id in Loaded(reqs) {
      assert id in Loaded(init) && Loaded(reqs)[id] == Loaded(init)[id];
      var k :| LastAnswered(init, id, k) && init[k].answer == Some(Loaded(init)[id]);
      forall j | k < j < |reqs| ensures !Answered(reqs, id, j) {
        if j < n {
          assert reqs[j] == init[j];
        }
      }
      assert reqs[k] == init[k];
      assert LastAnswered(reqs, id, k);
    }
  }

  /** The answered requests for `id` among `reqs` are those of all but the
      last request, and perhaps the last one. */
  lemma AnsweredSnoc(reqs: seq<Request>, id: string)
    requires reqs != []
    ensures var init := reqs[..|reqs| - 1];
            forall k :: 0 <= k < |init| ==> (Answered(reqs, id, k) <==> Answered(init, id, k))
    ensures var init := reqs[..|reqs| - 1];
            (exists k :: Answered(reqs, id, k)) <==>
              (exists k :: Answered(init, id, k)) || Answered(reqs, id, |reqs| - 1)
  {
    var init := reqs[..|reqs| - 1];
    if k :| Answered(reqs, id, k) {
      if k < |init| {
        assert Answered(init, id, k);
      }
    }
    if k :| Answered(init, id, k) {
      assert Answered(reqs, id, k);
    }
  }

  /** A group holds exactly the ids some answer classified into it, each once. */
  lemma {:induction false} MembersExact(reqs: seq<Request>, g: Group)
    ensures forall id :: id in Members(reqs, g) <==> ClassifiedAs(reqs, id, g)
    ensures Distinct(Members(reqs, g))
  {
    if reqs != [] {
      var init := reqs[..|reqs| - 1];
      var n := |reqs| - 1;
      MembersExact(init, g);
      forall id ensures id in Members(reqs, g) <==> ClassifiedAs(reqs, id, g) {
        ClassifiedSnoc(reqs, id, g);
      }
    }
  }

  lemma ClassifiedSnoc(reqs: seq<Request>, id: string, g: Group)
    requires reqs != []
    ensures var n := |reqs| - 1;
            ClassifiedAs(reqs, id, g) <==>
              ClassifiedAs(reqs[..n], id, g) || (Answered(reqs, id, n) && Classify(reqs[n].answer.value) == g)
  {
    var init := reqs[..|reqs| - 1];
    if k :| Answered(reqs, id, k) && Classify(reqs[k].answer.value) == g {
      if k < |init| {
        assert Answered(init, id, k) && init[k] == reqs[k];
      }
    }
    if k :| Answered(init, id, k) && Classify(init[k].answer.value) == g {
      assert Answered(reqs, id, k) && init[k] == reqs[k];
    }
  }

  /** For an id whose answers agree, the stored summary classifies into `g`
      exactly when some answer does. */
  lemma StoredClassifies(reqs: seq<Request>, id: string, g: Group)
    requires Consistent(reqs, id)
    ensures ClassifiedAs(reqs, id, g) <==> id in Loaded(reqs) && Classify(Loaded(reqs)[id]) == g
  {
    LoadedEntries(reqs);
    if id in Loaded(reqs) {
      var k :| LastAnswered(reqs, id, k) && reqs[k].answer == Some(Loaded(reqs)[id]);
      if j :| Answered(reqs, id, j) && Classify(reqs[j].answer.value) == g {
        assert Classify(reqs[k].answer.value) == g;
      }
      if Classify(Loaded(reqs)[id]) == g {
        assert Answered(reqs, id, k);
      }
    }
  }

  /** An id whose answers agree is classified into one group at most. */
  lemma OneGroup(reqs: seq<Request>, id: string, g1: Group, g2: Group)
    requires Consistent(reqs, id) && g1 != g2
    ensures !(ClassifiedAs(reqs, id, g1) && ClassifiedAs(reqs, id, g2))
  {
  }

  /** An id asked for once has consistent answers. */
  lemma AskedOnceConsistent(reqs: seq<Request>, id: string, k: nat)
    requires k < |reqs| && reqs[k].id == id
    requires forall j :: 0 <= j < |reqs| && j != k ==> reqs[j].id != id
    ensures Consistent(reqs, id)
  {
  }

  /** An id given twice whose two answers disagree ends up in two groups:
      the code's sets do not exclude each other. */
  lemma DuplicateIdInTwoGroups(id: string, stale: Info, moving: Info)
    requires stale.stale
    requires !moving.stale && moving.ev == Fin(10.0)
    ensures var reqs := [Request(id, Some(stale)), Request(id, Some(moving))];
            && id in Members(reqs, NoReport)
            && id in Members(reqs, Transit)
            && Loaded(reqs)[id] == moving
  {
    var reqs := [Request(id, Some(stale)), Request(id, Some(moving))];
    assert reqs[..1] == [Request(id, Some(stale))];
    assert reqs[..1][..0] == [];
  }
}
