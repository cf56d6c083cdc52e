/**
 * The FIR document schema (backend/models/Firnum.js) and the Mongoose collection built
 * from it: status-update entries, the status enum and its default, the required fields,
 * the unique index on `firNumber`, and the queries the handlers run over the collection.
 */
module FirModel {
  import opened Wrappers
  import opened Mongo
  import UserModel

  type UserId = UserModel.UserId
  type FirId = nat

  /** The values the schema's enum admits for `status`. */
  datatype Status = Filed | UnderInvestigation | Resolved | Closed | Rejected {
    function Name(): string {
      match this
      case Filed => "Filed"
      case UnderInvestigation => "Under Investigation"
      case Resolved => "Resolved"
      case Closed => "Closed"
      case Rejected => "Rejected"
    }
  }

  /** The schema default for `status`. */
  const DefaultStatus: string := "Filed"

  /** The enum validator: the status a string names, if any. */
  function ParseStatus(s: string): (r: Option<Status>)
    ensures r.Some? ==> r.value.Name() == s
  {
    if s == "Filed" then Some(Filed)
    else if s == "Under Investigation" then Some(UnderInvestigation)
    else if s == "Resolved" then Some(Resolved)
    else if s == "Closed" then Some(Closed)
    else if s == "Rejected" then Some(Rejected)
    else None
  }

  predicate IsStatus(s: string) {
    ParseStatus(s).Some?
  }

  /** Parsing a status name gives back that status. */
  lemma ParseName(st: Status)
    ensures ParseStatus(st.Name()) == Some(st)
  {
  }

  /** The default status is one the enum admits. */
  lemma DefaultStatusIsFiled()
    ensures ParseStatus(DefaultStatus) == Some(Filed)
  {
  }

  /** An entry of `statusUpdates`: `status` is a required string, `comment` optional, `date` a timestamp. */
  datatype StatusUpdate = StatusUpdate(status: string, comment: Option<string>, date: nat)

  /** A stored FIR document. `incidentType` is a free string: the schema has no enum for it. */
  datatype Fir = Fir(
    id: FirId,
    firNumber: string,
    complainantName: string,
    complainantPhone: string,
    incidentType: string,
    incidentDate: string,
    incidentLocation: string,
    description: string,
    accusedName: Option<string>,
    status: string,
    statusUpdates: seq<StatusUpdate>,
    statusUpdateDate: Option<nat>,
    createdAt: nat,
    user: UserId)

  /** The object given to `new FIR({...})`; absent keys are `None`. */
  datatype FirInput = FirInput(
    firNumber: Option<string>,
    complainantName: Option<string>,
    complainantPhone: Option<string>,
    incidentType: Option<string>,
    incidentDate: Option<string>,
    incidentLocation: Option<string>,
    description: Option<string>,
    accusedName: Option<string>,
    status: Option<string>,
    user: UserId)

  /**
   * The document `new FIR(input)` builds at time `now`: schema defaults fill `status`,
   * `statusUpdates` and `createdAt`. An absent required string becomes "", which the
   * required validator rejects just as it rejects an absent one.
   */
  function Construct(input: FirInput, id: FirId, now: nat): (f: Fir)
    ensures f.id == id && f.user == input.user && f.createdAt == now
    ensures f.status == input.status.GetOr(DefaultStatus)
    ensures f.statusUpdates == [] && f.statusUpdateDate == None
    ensures f.accusedName == input.accusedName
  {
    Fir(id,
      input.firNumber.GetOr(""), input.complainantName.GetOr(""), input.complainantPhone.GetOr(""),
      input.incidentType.GetOr(""), input.incidentDate.GetOr(""), input.incidentLocation.GetOr(""),
      input.description.GetOr(""), input.accusedName, input.status.GetOr(DefaultStatus),
      [], None, now, input.user)
  }

  /** The required string fields of the schema are all present and non-empty. */
  predicate HasRequiredFields(f: Fir) {
    && f.firNumber != "" && f.complainantName != "" && f.complainantPhone != ""
    && f.incidentType != "" && f.incidentDate != "" && f.incidentLocation != ""
    && f.description != ""
  }

  /** What schema validation on `save` checks: required fields, the status enum, and a status on every entry. */
  predicate Conforms(f: Fir) {
    && HasRequiredFields(f)
    && IsStatus(f.status)
    && (forall k :: 0 <= k < |f.statusUpdates| ==> f.statusUpdates[k].status != "")
  }

  /** A freshly built document passes validation exactly when the seven required inputs are truthy and the status is an enum member. */
  lemma ConstructConforms(input: FirInput, id: FirId, now: nat)
    ensures Conforms(Construct(input, id, now)) <==>
      && Truthy(input.firNumber) && Truthy(input.complainantName) && Truthy(input.complainantPhone)
      && Truthy(input.incidentType) && Truthy(input.incidentDate) && Truthy(input.incidentLocation)
      && Truthy(input.description) && IsStatus(input.status.GetOr(DefaultStatus))
  {
  }

  // ---------------------------------------------------------------------------
  // The status history

  /**
   * The handlers' invariant on a document: with no entries the status is the initial "Filed"
   * and no update date is set; otherwise status and update date are those of the last entry,
   * and every entry names an enum member.
   */
  predicate HistoryConsistent(f: Fir) {
    && (forall k :: 0 <= k < |f.statusUpdates| ==> IsStatus(f.statusUpdates[k].status))
    && (f.statusUpdates == [] ==> f.status == DefaultStatus && f.statusUpdateDate == None)
    && (f.statusUpdates != [] ==>
          var last := f.statusUpdates[|f.statusUpdates| - 1];
          f.status == last.status && f.statusUpdateDate == Some(last.date))
  }

  /** One status change: push the entry, overwrite `status`, set `statusUpdateDate`; nothing else changes. */
  function AppendStatus(f: Fir, status: string, comment: Option<string>, now: nat): (g: Fir)
    ensures g.statusUpdates == f.statusUpdates + [StatusUpdate(status, comment, now)]
    ensures g.status == status && g.statusUpdateDate == Some(now)
    ensures g.(status := f.status, statusUpdates := f.statusUpdates, statusUpdateDate := f.statusUpdateDate) == f
  {
    f.(status := status,
       statusUpdates := f.statusUpdates + [StatusUpdate(status, comment, now)],
       statusUpdateDate := Some(now))
  }

  /** A change to an enum status keeps the history consistent, and keeps a conforming document conforming. */
  lemma AppendStatusPreserves(f: Fir, status: string, comment: Option<string>, now: nat)
    requires IsStatus(status)
    ensures HistoryConsistent(f) ==> HistoryConsistent(AppendStatus(f, status, comment, now))
    ensures Conforms(f) ==> Conforms(AppendStatus(f, status, comment, now))
  {
    var g := AppendStatus(f, status, comment, now);
    assert forall k :: 0 <= k < |f.statusUpdates| ==> g.statusUpdates[k] == f.statusUpdates[k];
  }

  /** A status change as the handlers receive it. */
  datatype Change = Change(status: string, comment: Option<string>, date: nat)

  /** The document after a sequence of status changes, oldest first. */
  function ApplyChanges(f: Fir, changes: seq<Change>): Fir
    decreases |changes|
  {
    if changes == [] then f
    else
      var c := changes[|changes| - 1];
      AppendStatus(ApplyChanges(f, changes[..|changes| - 1]), c.status, c.comment, c.date)
  }

  /**
   * After N changes to a fresh report the history holds exactly those N entries in order,
   * the status is the last one's, and everything but the three status fields is as created.
   */
  lemma {:induction false} ApplyChangesHistory(f: Fir, changes: seq<Change>)
    ensures var g := ApplyChanges(f, changes);
      && |g.statusUpdates| == |f.statusUpdates| + |changes|
      && g.statusUpdates[..|f.statusUpdates|] == f.statusUpdates
      && (forall k :: 0 <= k < |changes| ==>
            g.statusUpdates[|f.statusUpdates| + k] ==
              StatusUpdate(changes[k].status, changes[k].comment, changes[k].date))
      && (changes != [] ==> g.status == changes[|changes| - 1].status)
      && g.(status := f.status, statusUpdates := f.statusUpdates, statusUpdateDate := f.statusUpdateDate) == f
    decreases |changes|
  {
    if changes != [] {
      var init := changes[..|changes| - 1];
      ApplyChangesHistory(f, init);
      var g0 := ApplyChanges(f, init);
      var c := changes[|changes| - 1];
      var g := AppendStatus(g0, c.status, c.comment, c.date);
      assert g.statusUpdates == g0.statusUpdates + [StatusUpdate(c.status, c.comment, c.date)];
      forall k | 0 <= k < |changes|
        ensures g.statusUpdates[|f.statusUpdates| + k] ==
                StatusUpdate(changes[k].status, changes[k].comment, changes[k].date)
      {
        if k < |init| {
          assert changes[k] == init[k];
        }
      }
    }
  }

  /** Changes to enum statuses keep a consistent history consistent, whatever their number. */
  lemma {:induction false} ApplyChangesConsistent(f: Fir, changes: seq<Change>)
    requires HistoryConsistent(f)
    requires forall k :: 0 <= k < |changes| ==> IsStatus(changes[k].status)
    ensures HistoryConsistent(ApplyChanges(f, changes))
    decreases |changes|
  {
    if changes != [] {
      var init := changes[..|changes| - 1];
      ApplyChangesConsistent(f, init);
      var c := changes[|changes| - 1];
      AppendStatusPreserves(ApplyChanges(f, init), c.status, c.comment, c.date);
    }
  }

  // ---------------------------------------------------------------------------
  // Queries over the stored documents

  /** The position of the document with `_id` `id`, if one is stored. */
  function IndexOfId(firs: seq<Fir>, id: FirId): (r: Option<nat>)
    ensures r.Some? ==> r.value < |firs| && firs[r.value].id == id
    ensures r.None? ==> forall k :: 0 <= k < |firs| ==> firs[k].id != id
  {
    if firs == [] then None
    else if firs[0].id == id then Some(0)
    else
      match IndexOfId(firs[1..], id)
      case None => None
      case Some(k) => Some(k + 1)
  }

  /** `findOne({ firNumber })`: the first document with that number. */
  function FindByNumber(firs: seq<Fir>, firNumber: string): (r: Option<Fir>)
    ensures r.Some? ==> r.value in firs && r.value.firNumber == firNumber
    ensures r.None? ==> forall k :: 0 <= k < |firs| ==> firs[k].firNumber != firNumber
  {
    if firs == [] then None
    else if firs[0].firNumber == firNumber then Some(firs[0])
    else FindByNumber(firs[1..], firNumber)
  }

  /** `find(filter)`: the documents the filter keeps, in stored order. */
  function Where(firs: seq<Fir>, keep: Fir -> bool): (r: seq<Fir>)
    ensures forall f :: f in r <==> f in firs && keep(f)
    ensures multiset(r) <= multiset(firs)
    ensures forall f :: multiset(r)[f] == if keep(f) then multiset(firs)[f] else 0
  {
    if firs == [] then []
    else
      var rest := Where(firs[1..], keep);
      assert firs == [firs[0]] + firs[1..];
      if keep(firs[0]) then [firs[0]] + rest else rest
  }

  /** Ordered by `createdAt`, newest first. */
  ghost predicate NewestFirst(s: seq<Fir>) {
    forall i, j :: 0 <= i < j < |s| ==> s[i].createdAt >= s[j].createdAt
  }

  function InsertByDate(f: Fir, s: seq<Fir>): (r: seq<Fir>)
    requires NewestFirst(s)
    ensures NewestFirst(r) && multiset(r) == multiset(s) + multiset{f}
    ensures |r| > 0 && (r[0] == f || (s != [] && r[0] == s[0]))
  {
    if s == [] || f.createdAt >= s[0].createdAt then
      ConsNewestFirst(f, s);
      [f] + s
    else
      var rest := InsertByDate(f, s[1..]);
      assert s == [s[0]] + s[1..];
      ConsNewestFirst(s[0], rest);
      [s[0]] + rest
  }

  /** A document at least as new as the head of a newest-first list can go in front of it. */
  lemma ConsNewestFirst(f: Fir, s: seq<Fir>)
    requires NewestFirst(s) && (s == [] || f.createdAt >= s[0].createdAt)
    ensures NewestFirst([f] + s)
  {
    var r := [f] + s;
    forall i, j | 0 <= i < j < |r|
      ensures r[i].createdAt >= r[j].createdAt
    {
      if i > 0 {
        assert r[i] == s[i - 1] && r[j] == s[j - 1];
      } else {
        assert r[j] == s[j - 1];
      }
    }
  }

  /** `.sort({ createdAt: -1 })`: the same documents, newest first. */
  function SortNewestFirst(s: seq<Fir>): (r: seq<Fir>)
    ensures NewestFirst(r) && multiset(r) == multiset(s)
  {
    if s == [] then []
    else
      assert s == [s[0]] + s[1..];
      InsertByDate(s[0], SortNewestFirst(s[1..]))
  }

  /** Sequences that are permutations of each other have the same members. */
  lemma SameMembers(a: seq<Fir>, b: seq<Fir>)
    requires multiset(a) == multiset(b)
    ensures forall f :: f in a <==> f in b
  {
    forall f ensures f in a <==> f in b {
      assert f in a <==> f in multiset(a);
      assert f in b <==> f in multiset(b);
    }
  }

  // ---------------------------------------------------------------------------
  // The collection

  ghost predicate UniqueIds(firs: seq<Fir>) {
    forall i, j :: 0 <= i < j < |firs| ==> firs[i].id != firs[j].id
  }

  ghost predicate UniqueNumbers(firs: seq<Fir>) {
    forall i, j :: 0 <= i < j < |firs| ==> firs[i].firNumber != firs[j].firNumber
  }

  ghost predicate AllConsistent(firs: seq<Fir>) {
    forall k :: 0 <= k < |firs| ==> HistoryConsistent(firs[k])
  }

  /** The FIR collection in insertion order, with the next `_id` to hand out. */
  class FirCollection {
    var firs: seq<Fir>
    var nextId: FirId

    /** Every stored document passed validation, `_id`s are unique and below `nextId`, FIR numbers are unique. */
    ghost predicate Valid()
      reads this
    {
      && (forall k :: 0 <= k < |firs| ==> firs[k].id < nextId && Conforms(firs[k]))
      && UniqueIds(firs)
      && UniqueNumbers(firs)
    }

    constructor ()
      ensures Valid() && firs == []
    {
      firs := [];
      nextId := 0;
    }

    /** `findById(id)`. */
    function FindById(id: FirId): (r: Option<Fir>)
      reads this
      ensures r.Some? ==> r.value in firs && r.value.id == id
      ensures r.None? ==> forall k :: 0 <= k < |firs| ==> firs[k].id != id
    {
      match IndexOfId(firs, id)
      case None => None
      case Some(k) => Some(firs[k])
    }

    /** `new FIR(input).save()`: validate, check the unique index, then append with a fresh `_id`. */
    method Insert(input: FirInput, now: nat) returns (r: SaveResult<Fir>)
      requires Valid()
      modifies this
      ensures Valid()
      ensures var doc := Construct(input, old(nextId), now);
        if !Conforms(doc) then r == Refused(ValidationFailed) && firs == old(firs)
        else if FindByNumber(old(firs), doc.firNumber).Some? then r == Refused(DuplicateKey) && firs == old(firs)
        else r == Saved(doc) && firs == old(firs) + [doc]
      ensures AllConsistent(old(firs)) && r.Saved? && HistoryConsistent(r.doc) ==> AllConsistent(firs)
    {
      var doc := Construct(input, nextId, now);
      if !Conforms(doc) {
        return Refused(ValidationFailed);
      }
      if FindByNumber(firs, doc.firNumber).Some? {
        return Refused(DuplicateKey);
      }
      firs := firs + [doc];
      nextId := nextId + 1;
      r := Saved(doc);
    }

    /** `doc.save()` of a document read earlier: validate, then replace the stored document with that `_id`. */
    method Save(doc: Fir) returns (r: SaveResult<Fir>)
      requires Valid()
      modifies this
      ensures Valid() && nextId == old(nextId)
      ensures var at := IndexOfId(old(firs), doc.id);
        if !Conforms(doc) then r == Refused(ValidationFailed) && firs == old(firs)
        else if at.None? then r == Refused(DocumentNotFound) && firs == old(firs)
        else if exists k :: 0 <= k < |old(firs)| && k != at.value && old(firs)[k].firNumber == doc.firNumber then
          r == Refused(DuplicateKey) && firs == old(firs)
        else r == Saved(doc) && firs == old(firs)[at.value := doc]
    {
      if !Conforms(doc) {
        return Refused(ValidationFailed);
      }
      var at := IndexOfId(firs, doc.id);
      if at.None? {
        return Refused(DocumentNotFound);
      }
      if exists k :: 0 <= k < |firs| && k != at.value && firs[k].firNumber == doc.firNumber {
        return Refused(DuplicateKey);
      }
      firs := firs[at.value := doc];
      r := Saved(doc);
    }
  }

  /** Replacing a document by one with the same `_id` and FIR number cannot collide with another. */
  lemma SameKeysNoCollision(firs: seq<Fir>, at: nat, doc: Fir)
    requires UniqueNumbers(firs) && at < |firs| && doc.firNumber == firs[at].firNumber
    ensures !exists k :: 0 <= k < |firs| && k != at && firs[k].firNumber == doc.firNumber
  {
  }
}
