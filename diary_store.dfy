/**
 * The diary table: entries keyed by a generated integer identifier, several
 * entries per date. The queries are filters over the stored entries, kept in
 * stored order. The derived queries name no ordering, so the order of their
 * results is a choice of this model: stored order is insertion order, and
 * identifiers increase with it.
 */
module DiaryStore {
  import opened Wrappers
  import opened Domain

  /** The entries of `s` that satisfy `p`, in stored order. */
  function Select(s: seq<Diary>, p: Diary -> bool): (r: seq<Diary>)
    ensures |r| <= |s|
    ensures multiset(r) <= multiset(s)
    ensures forall x :: x in r <==> x in s && p(x)
  {
    if s == [] then []
    else
      assert s == [s[0]] + s[1..];
      if p(s[0]) then [s[0]] + Select(s[1..], p)
      else Select(s[1..], p)
  }

  /** Selecting from a concatenation selects from each part in turn. */
  lemma {:induction false} SelectAppend(a: seq<Diary>, b: seq<Diary>, p: Diary -> bool)
    ensures Select(a + b, p) == Select(a, p) + Select(b, p)
  {
    if a == [] {
      assert a + b == b;
    } else {
      assert (a + b)[1..] == a[1..] + b;
      SelectAppend(a[1..], b, p);
    }
  }

  /** Two filters that agree on every stored entry select the same entries. */
  lemma {:induction false} SelectAgree(s: seq<Diary>, p: Diary -> bool, q: Diary -> bool)
    requires forall x :: x in s ==> p(x) == q(x)
    ensures Select(s, p) == Select(s, q)
  {
    if s != [] {
      assert forall x :: x in s[1..] ==> x in s;
      SelectAgree(s[1..], p, q);
    }
  }

  /** Identifiers strictly increase along the table: stored order is insertion order. */
  predicate IdsIncreasing(s: seq<Diary>)
  {
    forall i, j :: 0 <= i < j < |s| ==> s[i].id < s[j].id
  }

  /** No two stored entries share an identifier. */
  predicate UniqueIds(s: seq<Diary>)
  {
    forall i, j :: 0 <= i < |s| && 0 <= j < |s| && s[i].id == s[j].id ==> i == j
  }

  /** Filtering keeps the identifiers increasing. */
  lemma {:induction false} SelectKeepsIdsIncreasing(s: seq<Diary>, p: Diary -> bool)
    requires IdsIncreasing(s)
    ensures IdsIncreasing(Select(s, p))
  {
    if s != [] {
      SelectKeepsIdsIncreasing(s[1..], p);
      var rest := Select(s[1..], p);
      forall k | 0 <= k < |rest|
        ensures s[0].id < rest[k].id
      {
        assert rest[k] in s[1..];
      }
    }
  }

  /** The position of the stored entry with identifier `id`, if any. */
  function IndexOfId(s: seq<Diary>, id: int): (r: Option<nat>)
    ensures r.Some? ==> r.value < |s| && s[r.value].id == id
    ensures r.None? ==> forall i :: 0 <= i < |s| ==> s[i].id != id
  {
    if s == [] then None
    else if s[0].id == id then Some(0)
    else match IndexOfId(s[1..], id)
      case None => None
      case Some(i) => Some(i + 1)
  }

  /** The filters behind the date queries. */
  function OnDate(d: Date): Diary -> bool
  {
    (x: Diary) => x.date == d
  }

  function NotOnDate(d: Date): Diary -> bool
  {
    (x: Diary) => x.date != d
  }

  function InRange(dateAfter: Date, dateBefore: Date): Diary -> bool
  {
    (x: Diary) => dateAfter <= x.date <= dateBefore
  }

  /** findByDate: every stored entry dated `d`, and nothing else. */
  function FindByDate(s: seq<Diary>, d: Date): (r: seq<Diary>)
    ensures forall x :: x in r <==> x in s && x.date == d
    ensures multiset(r) <= multiset(s)
    ensures IdsIncreasing(s) ==> IdsIncreasing(r)
  {
    var r := Select(s, OnDate(d));
    assert IdsIncreasing(s) ==> IdsIncreasing(r) by {
      if IdsIncreasing(s) { SelectKeepsIdsIncreasing(s, OnDate(d)); }
    }
    r
  }

  /** findAllByDateBetween: every stored entry dated from `dateAfter` to `dateBefore`, both included. */
  function FindAllByDateBetween(s: seq<Diary>, dateAfter: Date, dateBefore: Date): (r: seq<Diary>)
    ensures forall x :: x in r <==> x in s && dateAfter <= x.date <= dateBefore
    ensures dateAfter > dateBefore ==> r == []
    ensures multiset(r) <= multiset(s)
    ensures IdsIncreasing(s) ==> IdsIncreasing(r)
  {
    var r := Select(s, InRange(dateAfter, dateBefore));
    assert r != [] ==> r[0] in r;
    assert IdsIncreasing(s) ==> IdsIncreasing(r) by {
      if IdsIncreasing(s) { SelectKeepsIdsIncreasing(s, InRange(dateAfter, dateBefore)); }
    }
    r
  }

  /**
   * findFirstByDate: the earliest stored entry dated `d`, or nothing when no
   * entry has that date. "First" is fixed as the head of findByDate's stored order.
   */
  function FindFirstByDate(s: seq<Diary>, d: Date): (r: Option<Diary>)
    ensures r.None? <==> forall x :: x in s ==> x.date != d
    ensures r.Some? ==> r.value in s && r.value.date == d
    ensures r == if FindByDate(s, d) == [] then None else Some(FindByDate(s, d)[0])
  {
    if s == [] then None
    else if s[0].date == d then Some(s[0])
    else FindFirstByDate(s[1..], d)
  }

  /** The table after deleteAllByDate(d): the entries with any other date, in stored order. */
  function WithoutDate(s: seq<Diary>, d: Date): (r: seq<Diary>)
    ensures forall x :: x in r <==> x in s && x.date != d
    ensures multiset(r) <= multiset(s)
    ensures IdsIncreasing(s) ==> IdsIncreasing(r)
  {
    var r := Select(s, NotOnDate(d));
    assert IdsIncreasing(s) ==> IdsIncreasing(r) by {
      if IdsIncreasing(s) { SelectKeepsIdsIncreasing(s, NotOnDate(d)); }
    }
    r
  }

  /** When identifiers increase with insertion, the first entry of a date has the lowest identifier of that date. */
  lemma {:induction false} FirstHasLowestId(s: seq<Diary>, d: Date, x: Diary)
    requires IdsIncreasing(s)
    requires x in s && x.date == d
    ensures FindFirstByDate(s, d).Some?
    ensures FindFirstByDate(s, d).value.id <= x.id
  {
    var j :| 0 <= j < |s| && s[j] == x;
    if s[0].date != d {
      assert s[1..][j - 1] == x;
      FirstHasLowestId(s[1..], d, x);
    } else if j > 0 {
      assert s[0].id < s[j].id;
    }
  }

  /** readDiaries is the union of readDiary over every day of the inclusive range. */
  lemma RangeIsUnionOfDays(s: seq<Diary>, dateAfter: Date, dateBefore: Date, x: Diary)
    ensures x in FindAllByDateBetween(s, dateAfter, dateBefore)
        <==> exists d :: dateAfter <= d <= dateBefore && x in FindByDate(s, d)
  {
    if x in FindAllByDateBetween(s, dateAfter, dateBefore) {
      assert x in FindByDate(s, x.date);
    }
  }

  /** A range of one day is exactly that day's entries, in the same order. */
  lemma SingleDayRange(s: seq<Diary>, d: Date)
    ensures FindAllByDateBetween(s, d, d) == FindByDate(s, d)
  {
    SelectAgree(s, InRange(d, d), OnDate(d));
  }

  /** Appending an entry adds it at the end of its own date's entries and changes no other date's. */
  lemma AppendThenFind(s: seq<Diary>, x: Diary, d: Date)
    ensures FindByDate(s + [x], d) == FindByDate(s, d) + (if x.date == d then [x] else [])
  {
    SelectAppend(s, [x], OnDate(d));
  }

  /** After deleting the entries of `d`, `d` has none and every other date keeps all of its own, in order. */
  lemma {:induction false} DeleteThenFind(s: seq<Diary>, d: Date, e: Date)
    ensures FindByDate(WithoutDate(s, d), e) == if e == d then [] else FindByDate(s, e)
  {
    if s != [] {
      DeleteThenFind(s[1..], d, e);
      if s[0].date != d {
        assert WithoutDate(s, d) == [s[0]] + WithoutDate(s[1..], d);
        assert ([s[0]] + WithoutDate(s[1..], d))[1..] == WithoutDate(s[1..], d);
      }
    }
  }

  /**
   * The stored diary table. `nextId` is the identifier the next new entry gets;
   * identifiers start at 1, so NO_ID never names a stored entry.
   */
  class DiaryRepository {
    var entries: seq<Diary>
    var nextId: int

    ghost predicate Valid()
      reads this
    {
      && 1 <= nextId
      && IdsIncreasing(entries)
      && forall i :: 0 <= i < |entries| ==> 1 <= entries[i].id < nextId
    }

    constructor ()
      ensures Valid() && entries == [] && nextId == 1
    {
      entries := [];
      nextId := 1;
    }

    /**
     * save: an entity whose identifier is stored replaces the stored entry in
     * place; any other entity is appended under a freshly generated identifier.
     */
    method Save(diary: Diary) returns (saved: Diary)
      requires Valid()
      modifies this
      ensures Valid()
      ensures UniqueIds(entries)
      ensures match IndexOfId(old(entries), diary.id)
        case Some(i) =>
          && saved == diary
          && entries == old(entries)[i := diary]
          && nextId == old(nextId)
        case None =>
          && saved == diary.(id := old(nextId))
          && entries == old(entries) + [saved]
          && nextId == old(nextId) + 1
    {
      match IndexOfId(entries, diary.id)
      case Some(i) =>
        saved := diary;
        entries := entries[i := diary];
      case None =>
        saved := diary.(id := nextId);
        entries := entries + [saved];
        nextId := nextId + 1;
    }

    /** deleteAllByDate: removes every entry dated `d` and keeps all others, in order. */
    method DeleteAllByDate(d: Date)
      requires Valid()
      modifies this
      ensures Valid()
      ensures entries == WithoutDate(old(entries), d)
      ensures nextId == old(nextId)
    {
      entries := WithoutDate(entries, d);
    }
  }
}
