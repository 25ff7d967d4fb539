/** The `attendance` collection: how a record is built from the session user,
    the two ways pages add one (skipping a same-day duplicate, or always
    appending), and the per-user history and per-day queries the pages show.
 */
module RecordStore {
  import opened Common
  import opened Model

  /** A new record for the session user: the user's id, name and roll number
      copied, status "present". `id` and `time` come from the clock. */
  function NewRecord(id: string, user: SessionUser, date: Day, time: string): (r: AttendanceRecord)
    ensures r.userId == user.id && r.userName == user.name && r.rollNumber == user.rollNumber
    ensures r.date == date && r.time == time && r.id == id
    ensures r.status == PresentStatus
  {
    AttendanceRecord(id, user.id, user.name, user.rollNumber, date, time, PresentStatus)
  }

  function OfUser(userId: string): AttendanceRecord -> bool {
    (r: AttendanceRecord) => r.userId == userId
  }

  function OnDay(date: Day): AttendanceRecord -> bool {
    (r: AttendanceRecord) => r.date == date
  }

  function OfUserOnDay(userId: string, date: Day): AttendanceRecord -> bool {
    (r: AttendanceRecord) => r.userId == userId && r.date == date
  }

  /** A record's user and day, the pair at most one record may carry. */
  function UserAndDay(): AttendanceRecord -> (string, Day) {
    (r: AttendanceRecord) => (r.userId, r.date)
  }

  function RecordUser(): AttendanceRecord -> string {
    (r: AttendanceRecord) => r.userId
  }

  /** Some record of `userId` is dated `date`. */
  predicate HasRecordOn(records: seq<AttendanceRecord>, userId: string, date: Day) {
    exists i :: 0 <= i < |records| && records[i].userId == userId && records[i].date == date
  }

  /** No user has two records on the same day. */
  predicate OnePerUserPerDay(records: seq<AttendanceRecord>) {
    forall i, j :: 0 <= i < j < |records| ==>
      !(records[i].userId == records[j].userId && records[i].date == records[j].date)
  }

  /** The commit of the attendance page with history: look for a record with
      the same user and day and append the new one only if there is none. */
  function AddUnlessPresent(records: seq<AttendanceRecord>, rec: AttendanceRecord): (r: seq<AttendanceRecord>)
    ensures HasRecordOn(records, rec.userId, rec.date) ==> r == records
    ensures !HasRecordOn(records, rec.userId, rec.date) ==> r == records + [rec]
  {
    if Find(records, OfUserOnDay(rec.userId, rec.date)).Some? then records else records + [rec]
  }

  /** The commit of the face-recognition attendance page: push unconditionally. */
  function Append(records: seq<AttendanceRecord>, rec: AttendanceRecord): (r: seq<AttendanceRecord>)
    ensures |r| == |records| + 1
    ensures r[..|records|] == records
    ensures r[|records|] == rec
  {
    records + [rec]
  }

  /** Skipping duplicates keeps the one-record-per-user-per-day invariant. */
  lemma AddUnlessPresentKeepsOnePerDay(records: seq<AttendanceRecord>, rec: AttendanceRecord)
    requires OnePerUserPerDay(records)
    ensures OnePerUserPerDay(AddUnlessPresent(records, rec))
  {
    if !HasRecordOn(records, rec.userId, rec.date) {
      var r := records + [rec];
      forall i, j | 0 <= i < j < |r|
        ensures !(r[i].userId == r[j].userId && r[i].date == r[j].date)
      {
        if j == |records| {
          assert r[i] == records[i];
        }
      }
    }
  }

  /** Appending unconditionally breaks the invariant as soon as the user
      already has a record that day. */
  lemma AppendCanDuplicate(records: seq<AttendanceRecord>, rec: AttendanceRecord)
    requires HasRecordOn(records, rec.userId, rec.date)
    ensures !OnePerUserPerDay(Append(records, rec))
  {
    var i :| 0 <= i < |records| && records[i].userId == rec.userId && records[i].date == rec.date;
    var r := Append(records, rec);
    assert r[i] == records[i] && r[|records|] == rec;
  }

  /** Storage level: the commit of the attendance page with history. When the
      user already has a record for the day nothing is written at all. */
  function CommitOnce(s: Store, rec: AttendanceRecord): (r: Store)
    ensures HasRecordOn(Records(s), rec.userId, rec.date) ==> r == s
    ensures !HasRecordOn(Records(s), rec.userId, rec.date) ==>
      r == s.(attendance := Some(Records(s) + [rec]))
  {
    var records := Records(s);
    if Find(records, OfUserOnDay(rec.userId, rec.date)).Some? then s
    else s.(attendance := Some(records + [rec]))
  }

  /** Storage level: `recordAttendance` of the face-recognition page. Only the
      `attendance` entry changes, and it grows by exactly the new record. */
  function RecordAttendance(s: Store, rec: AttendanceRecord): (r: Store)
    ensures r.attendance.Some?
    ensures Records(r) == Records(s) + [rec]
    ensures r == s.(attendance := r.attendance)
  {
    s.(attendance := Some(Append(Records(s), rec)))
  }

  // ----- ordering by date, newest first -----

  /** Newest first: `(a, b) => new Date(b.date) - new Date(a.date)`. */
  predicate NewestFirst(s: seq<AttendanceRecord>) {
    forall i, j :: 0 <= i < j < |s| ==> s[i].date >= s[j].date
  }

  /** Insert `x` into a newest-first sequence before every record not newer
      than it. */
  function Insert(x: AttendanceRecord, s: seq<AttendanceRecord>): (r: seq<AttendanceRecord>)
    requires NewestFirst(s)
    ensures NewestFirst(r)
    ensures multiset(r) == multiset(s) + multiset{x}
    ensures |r| == |s| + 1
    ensures r[0] == x || (|s| > 0 && r[0] == s[0])
  {
    if |s| == 0 || s[0].date <= x.date then
      [x] + s
    else
      var rest := Insert(x, s[1..]);
      assert s == [s[0]] + s[1..];
      assert s[0].date >= rest[0].date;
      [s[0]] + rest
  }

  /** The records sorted newest first. */
  function SortNewestFirst(s: seq<AttendanceRecord>): (r: seq<AttendanceRecord>)
    ensures NewestFirst(r)
    ensures multiset(r) == multiset(s)
  {
    if |s| == 0 then []
    else
      assert s == [s[0]] + s[1..];
      Insert(s[0], SortNewestFirst(s[1..]))
  }

  /** The history list: the user's records, newest first, at most `limit` of
      them. The attendance page with history shows 5, the home page 3. The
      list is the head of a newest-first ordering of all the user's records,
      so no record left out is newer than one kept. */
  function History(records: seq<AttendanceRecord>, userId: string, limit: nat): (r: seq<AttendanceRecord>)
    ensures |r| == Min(Count(records, OfUser(userId)), limit)
    ensures forall i :: 0 <= i < |r| ==> r[i].userId == userId
    ensures NewestFirst(r)
    ensures multiset(r) <= multiset(records)
    ensures exists rest :: NewestFirst(r + rest) && multiset(r + rest) == multiset(Filter(records, OfUser(userId)))
    ensures Count(records, OfUser(userId)) <= limit ==> multiset(r) == multiset(Filter(records, OfUser(userId)))
  {
    var mine := Filter(records, OfUser(userId));
    var sorted := SortNewestFirst(mine);
    SameMultisetSameLength(sorted, mine);
    var r := Take(sorted, limit);
    PrefixMultiset(sorted, |r|);
    MultisetKeepsProperty(sorted, mine, OfUser(userId));
    MultisetKeepsProperty(r, sorted, OfUser(userId));
    HeadOfOrdering(sorted, mine, |r|);
    r
  }

  /** The first `n` records of a newest-first ordering of `all` extend to a
      newest-first ordering of `all`. */
  lemma HeadOfOrdering(sorted: seq<AttendanceRecord>, all: seq<AttendanceRecord>, n: nat)
    requires NewestFirst(sorted) && multiset(sorted) == multiset(all)
    requires n <= |sorted|
    ensures exists rest :: NewestFirst(sorted[..n] + rest) && multiset(sorted[..n] + rest) == multiset(all)
  {
    assert sorted[..n] + sorted[n..] == sorted;
  }

  /** All records of one day (the query behind the daily roll-ups). */
  function RecordsOn(records: seq<AttendanceRecord>, date: Day): seq<AttendanceRecord> {
    Filter(records, OnDay(date))
  }

  /** When the user has no record for the record's day yet, the deduplicating
      commit adds it, and it shows up exactly once among the user's records
      and among that day's records. */
  lemma CommittedRecordListedOnce(s: Store, rec: AttendanceRecord)
    requires !HasRecordOn(Records(s), rec.userId, rec.date)
    ensures multiset(Filter(Records(CommitOnce(s, rec)), OfUser(rec.userId)))[rec] == 1
    ensures multiset(RecordsOn(Records(CommitOnce(s, rec)), rec.date))[rec] == 1
  {
    var after := Records(s) + [rec];
    assert Records(CommitOnce(s, rec)) == after;
    assert rec !in Records(s);
    assert multiset(after)[rec] == 1;
    FilterMultiplicity(after, OfUser(rec.userId), rec);
    FilterMultiplicity(after, OnDay(rec.date), rec);
  }

  /** The worked example: on an empty store, one commit for user "1" on a day
      gives one record that day and one record for the user. */
  lemma FirstCommitExample(user: SessionUser, date: Day, id: string, time: string)
    requires user.id == "1"
    ensures var r := Records(CommitOnce(EmptyStore, NewRecord(id, user, date, time)));
      |RecordsOn(r, date)| == 1 && Count(r, OfUser("1")) == 1
  {
    var rec := NewRecord(id, user, date, time);
    assert Records(EmptyStore) == [];
    FilterAppend([], rec, OfUser("1"));
    FilterAppend([], rec, OnDay(date));
    assert [] + [rec] == [rec];
  }
}
