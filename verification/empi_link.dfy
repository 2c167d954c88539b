/** Model of the EMPI link entity (EmpiLink) and of its table (MPI_LINK).

    A link records the match decision between a person resource and a target
    resource. Every column of the entity is nullable in memory (a fresh link has
    all of them null), so each field is an Option. The setters are pure update
    functions; the fluent `return this` becomes returning the updated link.
 */
module EmpiLinks {
  import opened Wrappers

  /** EmpiMatchResultEnum. */
  datatype MatchResult = NoMatch | PossibleMatch | Match

  /** EmpiLinkSourceEnum. */
  datatype LinkSource = Auto | Manual

  /** The persisted resource row a link points at; only its id is read here. */
  datatype ResourceTable = ResourceTable(id: Option<int>)

  datatype Link = Link(
    id: Option<int>,
    person: Option<ResourceTable>,
    personPid: Option<int>,
    target: Option<ResourceTable>,
    targetPid: Option<int>,
    matchResult: Option<MatchResult>,
    linkSource: Option<LinkSource>,
    created: Option<int>,
    updated: Option<int>)

  /** A link as the no-argument constructor leaves it: every field null. */
  const NewLink: Link := Link(None, None, None, None, None, None, None, None, None)

  /** The fields of a link, to say which ones an update may touch. */
  datatype Field = IdField | PersonField | PersonPidField | TargetField | TargetPidField
                 | MatchResultField | LinkSourceField | CreatedField | UpdatedField

  /** `a` and `b` hold the same value in field `f`. */
  predicate SameField(a: Link, b: Link, f: Field)
  {
    match f
    case IdField => a.id == b.id
    case PersonField => a.person == b.person
    case PersonPidField => a.personPid == b.personPid
    case TargetField => a.target == b.target
    case TargetPidField => a.targetPid == b.targetPid
    case MatchResultField => a.matchResult == b.matchResult
    case LinkSourceField => a.linkSource == b.linkSource
    case CreatedField => a.created == b.created
    case UpdatedField => a.updated == b.updated
  }

  /** Every field outside `changed` is the same in `a` and `b`. */
  predicate OnlyChanged(a: Link, b: Link, changed: set<Field>)
  {
    forall f :: f !in changed ==> SameField(a, b, f)
  }

  // ---------------------------------------------------------------------------
  // Setters
  // ---------------------------------------------------------------------------

  function SetId(link: Link, theId: Option<int>): (r: Link)
    ensures r.id == theId
    ensures OnlyChanged(link, r, {IdField})
  {
    link.(id := theId)
  }

  /** setPerson stores the resource and copies its id into the person pid. */
  function SetPerson(link: Link, thePerson: ResourceTable): (r: Link)
    ensures r.person == Some(thePerson) && r.personPid == thePerson.id
    ensures OnlyChanged(link, r, {PersonField, PersonPidField})
  {
    link.(person := Some(thePerson), personPid := thePerson.id)
  }

  /** setPersonPid changes the pid alone; the person reference is left as it was. */
  function SetPersonPid(link: Link, thePersonPid: Option<int>): (r: Link)
    ensures r.personPid == thePersonPid
    ensures r.person == link.person
    ensures OnlyChanged(link, r, {PersonPidField})
  {
    link.(personPid := thePersonPid)
  }

  /** setTarget stores the resource and copies its id into the target pid. */
  function SetTarget(link: Link, theTarget: ResourceTable): (r: Link)
    ensures r.target == Some(theTarget) && r.targetPid == theTarget.id
    ensures OnlyChanged(link, r, {TargetField, TargetPidField})
  {
    link.(target := Some(theTarget), targetPid := theTarget.id)
  }

  /** setTargetPid changes the pid alone; the target reference is left as it was. */
  function SetTargetPid(link: Link, theTargetPid: Option<int>): (r: Link)
    ensures r.targetPid == theTargetPid
    ensures r.target == link.target
    ensures OnlyChanged(link, r, {TargetPidField})
  {
    link.(targetPid := theTargetPid)
  }

  function SetMatchResult(link: Link, theMatchResult: Option<MatchResult>): (r: Link)
    ensures r.matchResult == theMatchResult
    ensures OnlyChanged(link, r, {MatchResultField})
  {
    link.(matchResult := theMatchResult)
  }

  function SetLinkSource(link: Link, theLinkSource: Option<LinkSource>): (r: Link)
    ensures r.linkSource == theLinkSource
    ensures OnlyChanged(link, r, {LinkSourceField})
  {
    link.(linkSource := theLinkSource)
  }

  function SetCreated(link: Link, theCreated: Option<int>): (r: Link)
    ensures r.created == theCreated
    ensures OnlyChanged(link, r, {CreatedField})
  {
    link.(created := theCreated)
  }

  function SetUpdated(link: Link, theUpdated: Option<int>): (r: Link)
    ensures r.updated == theUpdated
    ensures OnlyChanged(link, r, {UpdatedField})
  {
    link.(updated := theUpdated)
  }

  /** Each setter is undone by setting the field's previous value back. */
  lemma SettersAreUndone(link: Link, id: Option<int>, pid: Option<int>, m: Option<MatchResult>, s: Option<LinkSource>, t: Option<int>)
    ensures SetId(SetId(link, id), link.id) == link
    ensures SetPersonPid(SetPersonPid(link, pid), link.personPid) == link
    ensures SetTargetPid(SetTargetPid(link, pid), link.targetPid) == link
    ensures SetMatchResult(SetMatchResult(link, m), link.matchResult) == link
    ensures SetLinkSource(SetLinkSource(link, s), link.linkSource) == link
    ensures SetCreated(SetCreated(link, t), link.created) == link
    ensures SetUpdated(SetUpdated(link, t), link.updated) == link
  {
  }

  /** The person reference and the person pid agree (when a reference is set). */
  predicate PersonConsistent(link: Link)
  {
    link.person.Some? ==> link.personPid == link.person.value.id
  }

  predicate TargetConsistent(link: Link)
  {
    link.target.Some? ==> link.targetPid == link.target.value.id
  }

  /** setPerson/setTarget leave reference and pid in agreement; setPersonPid and
      setTargetPid can break that agreement, because they do not touch the reference. */
  lemma ReferenceAndPidAgreement(link: Link, person: ResourceTable, target: ResourceTable, pid: int)
    ensures PersonConsistent(SetPerson(link, person)) && TargetConsistent(SetTarget(link, target))
    ensures person.id != Some(pid) ==> !PersonConsistent(SetPersonPid(SetPerson(link, person), Some(pid)))
    ensures target.id != Some(pid) ==> !TargetConsistent(SetTargetPid(SetTarget(link, target), Some(pid)))
  {
  }

  /** One call of a setter, with its argument. */
  datatype Update =
    | UpdateId(theId: Option<int>)
    | UpdatePerson(thePerson: ResourceTable)
    | UpdatePersonPid(thePersonPid: Option<int>)
    | UpdateTarget(theTarget: ResourceTable)
    | UpdateTargetPid(theTargetPid: Option<int>)
    | UpdateMatchResult(theMatchResult: Option<MatchResult>)
    | UpdateLinkSource(theLinkSource: Option<LinkSource>)
    | UpdateCreated(theCreated: Option<int>)
    | UpdateUpdated(theUpdated: Option<int>)

  /** The link after the setter call `u`. */
  function Apply(link: Link, u: Update): Link
  {
    match u
    case UpdateId(x) => SetId(link, x)
    case UpdatePerson(x) => SetPerson(link, x)
    case UpdatePersonPid(x) => SetPersonPid(link, x)
    case UpdateTarget(x) => SetTarget(link, x)
    case UpdateTargetPid(x) => SetTargetPid(link, x)
    case UpdateMatchResult(x) => SetMatchResult(link, x)
    case UpdateLinkSource(x) => SetLinkSource(link, x)
    case UpdateCreated(x) => SetCreated(link, x)
    case UpdateUpdated(x) => SetUpdated(link, x)
  }

  /** The fields a setter call writes. */
  function Touches(u: Update): set<Field>
  {
    match u
    case UpdateId(_) => {IdField}
    case UpdatePerson(_) => {PersonField, PersonPidField}
    case UpdatePersonPid(_) => {PersonPidField}
    case UpdateTarget(_) => {TargetField, TargetPidField}
    case UpdateTargetPid(_) => {TargetPidField}
    case UpdateMatchResult(_) => {MatchResultField}
    case UpdateLinkSource(_) => {LinkSourceField}
    case UpdateCreated(_) => {CreatedField}
    case UpdateUpdated(_) => {UpdatedField}
  }

  /** A setter call writes the fields it touches and leaves every other field as it was. */
  lemma ApplyChangesOnlyTouched(link: Link, u: Update)
    ensures OnlyChanged(link, Apply(link, u), Touches(u))
  {
  }

  /** Setters of disjoint fields commute; a setter whose fields include those of
      an earlier one overwrites it completely. */
  lemma SettersOverwriteAndCommute(link: Link, u: Update, v: Update)
    ensures Touches(u) !! Touches(v) ==> Apply(Apply(link, u), v) == Apply(Apply(link, v), u)
    ensures Touches(u) <= Touches(v) ==> Apply(Apply(link, u), v) == Apply(link, v)
  {
  }

  // ---------------------------------------------------------------------------
  // Classification
  // ---------------------------------------------------------------------------

  predicate IsNoMatch(link: Link) { link.matchResult == Some(NoMatch) }
  predicate IsMatch(link: Link) { link.matchResult == Some(Match) }
  predicate IsPossibleMatch(link: Link) { link.matchResult == Some(PossibleMatch) }

  predicate IsAuto(link: Link) { link.linkSource == Some(Auto) }
  predicate IsManual(link: Link) { link.linkSource == Some(Manual) }

  /** With a match result set, exactly one of the three classifications holds;
      with none set, none holds. */
  lemma MatchClassificationExclusive(link: Link)
    ensures link.matchResult.Some? ==>
      (IsMatch(link) && !IsPossibleMatch(link) && !IsNoMatch(link))
      || (!IsMatch(link) && IsPossibleMatch(link) && !IsNoMatch(link))
      || (!IsMatch(link) && !IsPossibleMatch(link) && IsNoMatch(link))
    ensures link.matchResult.None? ==> !IsMatch(link) && !IsPossibleMatch(link) && !IsNoMatch(link)
  {
    if link.matchResult.Some? {
      match link.matchResult.value
      case Match =>
      case PossibleMatch =>
      case NoMatch =>
    }
  }

  /** After setMatchResult each classification holds exactly for its own value. */
  lemma SetMatchResultClassifies(link: Link, result: MatchResult)
    ensures IsMatch(SetMatchResult(link, Some(result))) <==> result == Match
    ensures IsPossibleMatch(SetMatchResult(link, Some(result))) <==> result == PossibleMatch
    ensures IsNoMatch(SetMatchResult(link, Some(result))) <==> result == NoMatch
    ensures IsAuto(SetMatchResult(link, Some(result))) <==> IsAuto(link)
    ensures IsManual(SetMatchResult(link, Some(result))) <==> IsManual(link)
  {
  }

  /** With a link source set, exactly one of isAuto and isManual holds. */
  lemma LinkSourceClassificationExclusive(link: Link)
    ensures link.linkSource.Some? ==> (IsAuto(link) <==> !IsManual(link))
    ensures link.linkSource.None? ==> !IsAuto(link) && !IsManual(link)
  {
    if link.linkSource.Some? {
      match link.linkSource.value
      case Auto =>
      case Manual =>
    }
  }

  lemma SetLinkSourceClassifies(link: Link, source: LinkSource)
    ensures IsAuto(SetLinkSource(link, Some(source))) <==> source == Auto
    ensures IsManual(SetLinkSource(link, Some(source))) <==> source == Manual
    ensures IsMatch(SetLinkSource(link, Some(source))) <==> IsMatch(link)
    ensures IsPossibleMatch(SetLinkSource(link, Some(source))) <==> IsPossibleMatch(link)
    ensures IsNoMatch(SetLinkSource(link, Some(source))) <==> IsNoMatch(link)
  {
  }

  // ---------------------------------------------------------------------------
  // The link table
  // ---------------------------------------------------------------------------

  /** The (PERSON_PID, TARGET_PID) pair of a link, when both are present. */
  function PairOf(link: Link): Option<(int, int)>
  {
    if link.personPid.Some? && link.targetPid.Some? then Some((link.personPid.value, link.targetPid.value)) else None
  }

  /** Every column declared NOT NULL holds a value. */
  predicate NotNullColumnsSet(link: Link)
  {
    && link.personPid.Some? && link.targetPid.Some?
    && link.matchResult.Some? && link.linkSource.Some?
    && link.created.Some? && link.updated.Some?
  }

  /** The unique constraint IDX_EMPI_PERSON_TGT: no two rows share a pid pair. */
  predicate UniquePairs(rows: seq<Link>)
  {
    forall i, j :: 0 <= i < |rows| && 0 <= j < |rows| && i != j ==> PairOf(rows[i]) != PairOf(rows[j])
  }

  /** A table that obeys its constraints. */
  predicate ValidTable(rows: seq<Link>)
  {
    && (forall i :: 0 <= i < |rows| ==> NotNullColumnsSet(rows[i]))
    && UniquePairs(rows)
  }

  datatype TableError = NotNullViolation | UniqueViolation

  /** The rows holding the given pid pair. */
  function RowsWithPair(rows: seq<Link>, pair: (int, int)): (matching: seq<Link>)
    ensures |matching| <= |rows|
    ensures forall l :: l in matching ==> l in rows && PairOf(l) == Some(pair)
    ensures forall i :: 0 <= i < |rows| && PairOf(rows[i]) == Some(pair) ==> rows[i] in matching
  {
    if |rows| == 0 then []
    else (if PairOf(rows[0]) == Some(pair) then [rows[0]] else []) + RowsWithPair(rows[1..], pair)
  }

  /** Inserting a row: refused when a NOT NULL column is null or when a row
      with the same pid pair already exists; otherwise the row is appended. */
  function Insert(rows: seq<Link>, link: Link): (r: Result<seq<Link>, TableError>)
    ensures r.Failure? <==> !NotNullColumnsSet(link) || exists i :: 0 <= i < |rows| && PairOf(rows[i]) == PairOf(link)
    ensures r.Failure? && NotNullColumnsSet(link) ==> r.error == UniqueViolation
    ensures r.Success? ==> r.value == rows + [link]
    ensures ValidTable(rows) && r.Success? ==> ValidTable(r.value)
  {
    if !NotNullColumnsSet(link) then Failure(NotNullViolation)
    else if exists i :: 0 <= i < |rows| && PairOf(rows[i]) == PairOf(link) then Failure(UniqueViolation)
    else Success(rows + [link])
  }

  /** A table obeying the constraint holds at most one link per (personPid, targetPid). */
  lemma {:induction false} AtMostOneLinkPerPair(rows: seq<Link>, pair: (int, int))
    requires UniquePairs(rows)
    ensures |RowsWithPair(rows, pair)| <= 1
    decreases |rows|
  {
    if |rows| > 0 {
      var tail := rows[1..];
      assert UniquePairs(tail) by {
        forall i, j | 0 <= i < |tail| && 0 <= j < |tail| && i != j ensures PairOf(tail[i]) != PairOf(tail[j]) {
          assert tail[i] == rows[i + 1] && tail[j] == rows[j + 1];
        }
      }
      AtMostOneLinkPerPair(tail, pair);
      if PairOf(rows[0]) == Some(pair) {
        forall i | 0 <= i < |tail| ensures PairOf(tail[i]) != Some(pair) {
          assert tail[i] == rows[i + 1];
        }
        NoRowsWithPair(tail, pair);
      }
    }
  }

  /** A link fresh from the no-argument constructor has no classification and
      cannot be stored: its NOT NULL columns are all null. */
  lemma NewLinkIsUnclassifiedAndUnstorable(rows: seq<Link>)
    ensures !IsMatch(NewLink) && !IsPossibleMatch(NewLink) && !IsNoMatch(NewLink)
    ensures !IsAuto(NewLink) && !IsManual(NewLink)
    ensures Insert(rows, NewLink) == Failure(NotNullViolation)
  {
  }

  lemma {:induction false} NoRowsWithPair(rows: seq<Link>, pair: (int, int))
    requires forall i :: 0 <= i < |rows| ==> PairOf(rows[i]) != Some(pair)
    ensures RowsWithPair(rows, pair) == []
    decreases |rows|
  {
    if |rows| > 0 {
      NoRowsWithPair(rows[1..], pair);
    }
  }
}
