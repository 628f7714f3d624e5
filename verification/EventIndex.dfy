/** The lookup tables built over one listing of the remote calendar, and how a row is matched against them. */
module EventIndex {
  import opened Text
  import opened CalendarModel

  datatype Index = Index(listed: bool, byId: map<string, Event>, byRow: map<int, Event>,
                         byIdentity: map<Identity, Event>, byStayDay: map<(int, Day), Event>)

  const UNLISTED := Index(false, map[], map[], map[], map[])
  const FRESH := Index(true, map[], map[], map[], map[])

  // ---------- building ----------

  predicate Usable(e: Event) {
    e.id != "" && !e.cancelled
  }

  /** Keep the event with the smaller id. */
  function AddLeast<K>(m: map<K, Event>, key: Option<K>, e: Event): map<K, Event> {
    if key.None? then m
    else if key.value !in m || Less(e.id, m[key.value].id) then m[key.value := e] else m
  }

  function RowKey(property: int, e: Event): Option<int> {
    if Usable(e) && e.props.property == Some(property) then e.props.rowId else None
  }

  function IdentityKey(property: int, e: Event): Option<Identity> {
    if Usable(e) && e.props.property == Some(property) then e.props.identity else None
  }

  function StayDayKey(property: int, offset: int, e: Event): Option<(int, Day)> {
    if Usable(e) && e.props.property == Some(property) && e.props.stay.Some?
    then Some((e.props.stay.value, DayOf(offset, e.starts))) else None
  }

  function Add(idx: Index, property: int, offset: int, e: Event): Index {
    if !Usable(e) then idx
    else Index(idx.listed, idx.byId[e.id := e],
               AddLeast(idx.byRow, RowKey(property, e), e),
               AddLeast(idx.byIdentity, IdentityKey(property, e), e),
               AddLeast(idx.byStayDay, StayDayKey(property, offset, e), e))
  }

  function IndexOf(events: seq<Event>, property: int, offset: int): Index {
    if events == [] then FRESH
    else Add(IndexOf(events[..|events| - 1], property, offset), property, offset, events[|events| - 1])
  }

  method NewIndex(events: seq<Event>, property: int, offset: int) returns (idx: Index)
    ensures idx == IndexOf(events, property, offset)
  {
    idx := FRESH;
    for n := 0 to |events|
      invariant idx == IndexOf(events[..n], property, offset)
    {
      assert events[..n + 1][..n] == events[..n];
      var e := events[n];
      if !Usable(e) {
        continue;
      }
      idx := idx.(byId := idx.byId[e.id := e]);
      if e.props.property != Some(property) {
        continue;
      }
      if e.props.rowId.Some? {
        idx := idx.(byRow := AddLeast(idx.byRow, e.props.rowId, e));
      }
      if e.props.identity.Some? {
        idx := idx.(byIdentity := AddLeast(idx.byIdentity, e.props.identity, e));
      }
      if e.props.stay.Some? {
        idx := idx.(byStayDay := AddLeast(idx.byStayDay, Some((e.props.stay.value, DayOf(offset, e.starts))), e));
      }
    }
    assert events[..|events|] == events;
  }

  // ---------- matching ----------

  function Match(idx: Index, desired: Row, existing: Option<Row>): string {
    if !idx.listed then ""
    else if existing.Some? && existing.value.googleId.Some? && existing.value.googleId.value in idx.byId then
      idx.byId[existing.value.googleId.value].id
    else if desired.googleId.Some? && desired.googleId.value in idx.byId then
      idx.byId[desired.googleId.value].id
    else if existing.Some? && existing.value.id > 0 && existing.value.id in idx.byRow then
      idx.byRow[existing.value.id].id
    else if desired.identity.Some? && desired.identity.value in idx.byIdentity then
      idx.byIdentity[desired.identity.value].id
    else if existing.Some? && existing.value.identity.Some? && existing.value.identity.value in idx.byIdentity then
      idx.byIdentity[existing.value.identity.value].id
    else if (desired.stay, desired.date) in idx.byStayDay then
      idx.byStayDay[(desired.stay, desired.date)].id
    else ""
  }

  predicate Seen(idx: Index, r: Row) {
    idx.listed && r.googleId.Some? && r.googleId.value in idx.byId
  }

  // ---------- a plain scan says the same ----------

  /** One way an event can belong to a row; a row that lacks the needed field offers `Never` in its place. */
  datatype Criterion =
    | Never
    | HasId(id: string)
    | WrittenFor(row: int)
    | HasIdentity(identity: Identity)
    | OnStayDay(stay: int, day: Day)

  /** The ways in order of priority. */
  function Criteria(desired: Row, existing: Option<Row>): seq<Criterion> {
    [ if existing.Some? && existing.value.googleId.Some? then HasId(existing.value.googleId.value) else Never,
      if desired.googleId.Some? then HasId(desired.googleId.value) else Never,
      if existing.Some? && existing.value.id > 0 then WrittenFor(existing.value.id) else Never,
      if desired.identity.Some? then HasIdentity(desired.identity.value) else Never,
      if existing.Some? && existing.value.identity.Some? then HasIdentity(existing.value.identity.value) else Never,
      OnStayDay(desired.stay, desired.date) ]
  }

  predicate Satisfies(e: Event, c: Criterion, property: int, offset: int) {
    e.id != "" && !e.cancelled &&
    match c
    case Never => false
    case HasId(id) => e.id == id
    case WrittenFor(row) => e.props.property == Some(property) && e.props.rowId == Some(row)
    case HasIdentity(i) => e.props.property == Some(property) && e.props.identity == Some(i)
    case OnStayDay(stay, day) =>
      e.props.property == Some(property) && e.props.stay == Some(stay) && DayOf(offset, e.starts) == day
  }

  ghost predicate Nobody(events: seq<Event>, c: Criterion, property: int, offset: int) {
    forall e | e in events :: !Satisfies(e, c, property, offset)
  }

  ghost predicate Least(events: seq<Event>, c: Criterion, property: int, offset: int, id: string) {
    && (exists e :: e in events && Satisfies(e, c, property, offset) && e.id == id)
    && (forall e | e in events && Satisfies(e, c, property, offset) :: !Less(e.id, id))
  }

  /** `id` is the least id satisfying the first criterion anything satisfies, or blank if nothing satisfies any. */
  ghost predicate FirstLeast(events: seq<Event>, cs: seq<Criterion>, property: int, offset: int, id: string) {
    if cs == [] then id == ""
    else if Nobody(events, cs[0], property, offset) then FirstLeast(events, cs[1..], property, offset, id)
    else Least(events, cs[0], property, offset, id)
  }

  /** Nobody satisfies any of the criteria before position `k`. */
  ghost predicate NobodyBefore(events: seq<Event>, cs: seq<Criterion>, property: int, offset: int, k: nat)
    requires k <= |cs|
  {
    forall j | 0 <= j < k :: Nobody(events, cs[j], property, offset)
  }

  /** Only the stay and the day lead to an event: nobody has the ids, the row or the identity looked for. */
  ghost predicate OnlyByStayDay(events: seq<Event>, property: int, offset: int, desired: Row, existing: Option<Row>) {
    && NobodyBefore(events, Criteria(desired, existing), property, offset, 5)
    && !Nobody(events, OnStayDay(desired.stay, desired.date), property, offset)
  }

  /** `m` maps every key some event carries to the least such event, and nothing else. */
  ghost predicate LeastPerKey<K(!new)>(m: map<K, Event>, events: seq<Event>, keyOf: Event -> Option<K>) {
    && (forall k | k in m :: m[k] in events && keyOf(m[k]) == Some(k))
    && (forall e | e in events && keyOf(e).Some? :: keyOf(e).value in m && !Less(e.id, m[keyOf(e).value].id))
  }

  lemma AddLeastExtends<K(!new)>(m: map<K, Event>, events: seq<Event>, keyOf: Event -> Option<K>, e: Event)
    requires LeastPerKey(m, events, keyOf)
    ensures LeastPerKey(AddLeast(m, keyOf(e), e), events + [e], keyOf)
  {
    var m' := AddLeast(m, keyOf(e), e);
    LessIsTotal(e.id, e.id);
    forall x | x in events + [e] && keyOf(x).Some?
      ensures keyOf(x).value in m' && !Less(x.id, m'[keyOf(x).value].id)
    {
      var k := keyOf(x).value;
      if x in events && m'[k] != m[k] {
        if Less(x.id, e.id) {
          LessIsTransitive(x.id, e.id, m[k].id);
        }
      }
    }
  }

  ghost predicate Faithful(idx: Index, events: seq<Event>, property: int, offset: int) {
    && idx.listed
    && (forall id | id in idx.byId :: idx.byId[id] in events && Usable(idx.byId[id]) && idx.byId[id].id == id)
    && (forall e | e in events && Usable(e) :: e.id in idx.byId)
    && LeastPerKey(idx.byRow, events, e => RowKey(property, e))
    && LeastPerKey(idx.byIdentity, events, e => IdentityKey(property, e))
    && LeastPerKey(idx.byStayDay, events, e => StayDayKey(property, offset, e))
  }

  lemma {:induction false} IndexIsFaithful(events: seq<Event>, property: int, offset: int)
    ensures Faithful(IndexOf(events, property, offset), events, property, offset)
  {
    if events != [] {
      var init, e := events[..|events| - 1], events[|events| - 1];
      assert events == init + [e];
      IndexIsFaithful(init, property, offset);
      var idx := IndexOf(init, property, offset);
      AddLeastExtends(idx.byRow, init, x => RowKey(property, x), e);
      AddLeastExtends(idx.byIdentity, init, x => IdentityKey(property, x), e);
      AddLeastExtends(idx.byStayDay, init, x => StayDayKey(property, offset, x), e);
    }
  }

  function Answer(idx: Index, c: Criterion): Option<string> {
    match c
    case Never => None
    case HasId(id) => if id in idx.byId then Some(idx.byId[id].id) else None
    case WrittenFor(row) => if row in idx.byRow then Some(idx.byRow[row].id) else None
    case HasIdentity(i) => if i in idx.byIdentity then Some(idx.byIdentity[i].id) else None
    case OnStayDay(stay, day) => if (stay, day) in idx.byStayDay then Some(idx.byStayDay[(stay, day)].id) else None
  }

  function FirstAnswer(idx: Index, cs: seq<Criterion>): string {
    if cs == [] then "" else if Answer(idx, cs[0]).Some? then Answer(idx, cs[0]).value else FirstAnswer(idx, cs[1..])
  }

  ghost predicate CriterionIsIndexed(idx: Index, events: seq<Event>, property: int, offset: int, c: Criterion) {
    if Answer(idx, c).None? then Nobody(events, c, property, offset)
    else !Nobody(events, c, property, offset) && Least(events, c, property, offset, Answer(idx, c).value)
  }

  lemma IndexAnswers(idx: Index, events: seq<Event>, property: int, offset: int, c: Criterion)
    requires Faithful(idx, events, property, offset)
    ensures CriterionIsIndexed(idx, events, property, offset, c)
  {
    forall e | e in events && Satisfies(e, c, property, offset)
      ensures Answer(idx, c).Some? && !Less(e.id, Answer(idx, c).value)
    {
      LessIsTotal(e.id, e.id);
      assert (x => RowKey(property, x))(e) == RowKey(property, e);
      assert (x => IdentityKey(property, x))(e) == IdentityKey(property, e);
      assert (x => StayDayKey(property, offset, x))(e) == StayDayKey(property, offset, e);
    }
    if Answer(idx, c).Some? {
      var e := match c
        case HasId(id) => idx.byId[id]
        case WrittenFor(row) => idx.byRow[row]
        case HasIdentity(i) => idx.byIdentity[i]
        case OnStayDay(stay, day) => idx.byStayDay[(stay, day)];
      assert e in events && Satisfies(e, c, property, offset);
    }
  }

  lemma {:induction false} ScanFollowsIndex(idx: Index, events: seq<Event>, property: int, offset: int,
                                            cs: seq<Criterion>)
    requires forall c :: CriterionIsIndexed(idx, events, property, offset, c)
    ensures FirstLeast(events, cs, property, offset, FirstAnswer(idx, cs))
  {
    if cs != [] {
      assert CriterionIsIndexed(idx, events, property, offset, cs[0]);
      ScanFollowsIndex(idx, events, property, offset, cs[1..]);
    }
  }

  lemma FirstAnswerUnfolds(idx: Index, cs: seq<Criterion>, i: nat)
    requires i < |cs|
    ensures FirstAnswer(idx, cs[i..])
         == if Answer(idx, cs[i]).Some? then Answer(idx, cs[i]).value else FirstAnswer(idx, cs[i + 1..])
  {
    assert cs[i..][0] == cs[i] && cs[i..][1..] == cs[i + 1..];
  }

  lemma LastThree(idx: Index, cs: seq<Criterion>)
    requires |cs| == 6
    ensures FirstAnswer(idx, cs[3..]) == (
        if Answer(idx, cs[3]).Some? then Answer(idx, cs[3]).value
        else if Answer(idx, cs[4]).Some? then Answer(idx, cs[4]).value
        else if Answer(idx, cs[5]).Some? then Answer(idx, cs[5]).value else "")
  {
    hide Answer;
    FirstAnswerUnfolds(idx, cs, 3);
    FirstAnswerUnfolds(idx, cs, 4);
    FirstAnswerUnfolds(idx, cs, 5);
  }

  lemma AllSix(idx: Index, cs: seq<Criterion>)
    requires |cs| == 6
    ensures FirstAnswer(idx, cs) == (
        if Answer(idx, cs[0]).Some? then Answer(idx, cs[0]).value
        else if Answer(idx, cs[1]).Some? then Answer(idx, cs[1]).value
        else if Answer(idx, cs[2]).Some? then Answer(idx, cs[2]).value else FirstAnswer(idx, cs[3..]))
  {
    hide Answer;
    FirstAnswerUnfolds(idx, cs, 0);
    FirstAnswerUnfolds(idx, cs, 1);
    FirstAnswerUnfolds(idx, cs, 2);
    assert cs[0..] == cs;
  }

  lemma MatchIsFirstAnswer(idx: Index, desired: Row, existing: Option<Row>)
    requires idx.listed
    ensures Match(idx, desired, existing) == FirstAnswer(idx, Criteria(desired, existing))
  {
    hide FirstAnswer;
    AllSix(idx, Criteria(desired, existing));
    LastThree(idx, Criteria(desired, existing));
  }

  /**
   * Matching through the lookup tables is scanning the listing: the answer is the least id that satisfies the
   * first criterion, in priority order, which any usable listed event satisfies.
   */
  lemma MatchIsFirstLeast(events: seq<Event>, property: int, offset: int, desired: Row, existing: Option<Row>)
    ensures FirstLeast(events, Criteria(desired, existing), property, offset,
                       Match(IndexOf(events, property, offset), desired, existing))
  {
    IndexIsFaithful(events, property, offset);
    var idx := IndexOf(events, property, offset);
    forall c: Criterion ensures CriterionIsIndexed(idx, events, property, offset, c) {
      IndexAnswers(idx, events, property, offset, c);
    }
    ScanFollowsIndex(idx, events, property, offset, Criteria(desired, existing));
    MatchIsFirstAnswer(idx, desired, existing);
  }

  /** Where the scan found its answer. */
  lemma {:induction false} FirstLeastPosition(events: seq<Event>, cs: seq<Criterion>, property: int, offset: int,
                                              id: string)
    returns (k: nat)
    requires FirstLeast(events, cs, property, offset, id)
    ensures k <= |cs| && NobodyBefore(events, cs, property, offset, k)
    ensures if k == |cs| then id == ""
            else !Nobody(events, cs[k], property, offset) && Least(events, cs[k], property, offset, id)
  {
    if cs == [] {
      k := 0;
    } else if Nobody(events, cs[0], property, offset) {
      var j := FirstLeastPosition(events, cs[1..], property, offset, id);
      k := j + 1;
      forall i | 0 <= i < k
        ensures Nobody(events, cs[i], property, offset)
      {
        assert i > 0 ==> cs[i] == cs[1..][i - 1];
      }
    } else {
      k := 0;
    }
  }

  /** A scan has one answer, whatever the order of the listing. */
  lemma {:induction false} FirstLeastIsUnique(xs: seq<Event>, ys: seq<Event>, cs: seq<Criterion>,
                                              property: int, offset: int, a: string, b: string)
    requires forall e :: e in xs <==> e in ys
    requires FirstLeast(xs, cs, property, offset, a) && FirstLeast(ys, cs, property, offset, b)
    ensures a == b
  {
    if cs != [] {
      if Nobody(xs, cs[0], property, offset) {
        FirstLeastIsUnique(xs, ys, cs[1..], property, offset, a, b);
      } else {
        LessIsTotal(a, b);
      }
    }
  }

  /** The order in which the calendar lists its events never matters. */
  lemma MatchIgnoresOrder(xs: seq<Event>, ys: seq<Event>, property: int, offset: int, desired: Row,
                          existing: Option<Row>)
    requires multiset(xs) == multiset(ys)
    ensures Match(IndexOf(xs, property, offset), desired, existing)
         == Match(IndexOf(ys, property, offset), desired, existing)
  {
    forall e ensures e in xs <==> e in ys {
      assert e in xs <==> e in multiset(xs);
      assert e in ys <==> e in multiset(ys);
    }
    MatchIsFirstLeast(xs, property, offset, desired, existing);
    MatchIsFirstLeast(ys, property, offset, desired, existing);
    FirstLeastIsUnique(xs, ys, Criteria(desired, existing), property, offset,
                       Match(IndexOf(xs, property, offset), desired, existing),
                       Match(IndexOf(ys, property, offset), desired, existing));
  }
}
