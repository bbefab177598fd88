/**
 * `SubjectsToCsvConverter.ConvertToCsvString` and the order the sorted
 * export uses: `OrderBy(Surname).ThenBy(Name).ThenBy(Patronymic).ThenBy(Birthday)`.
 */
module Export {
  import opened Common
  import opened Text
  import opened Dates
  import opened Subjects

  /**
   * One CSV line: surname;name;patronymic;short birthday;serial;passport,
   * where the passport is its unpadded digits with '-' inserted after the
   * fourth character and the serial is the text before that '-'. `None`
   * stands for the ArgumentOutOfRangeException `Insert(4, "-")` throws on a
   * text shorter than four characters.
   */
  function ConvertToCsvString(s: Subject): (r: Option<string>)
    ensures r.Some? <==> |LongText(s.passportNumber)| >= 4
  {
    var digits := LongText(s.passportNumber);
    if |digits| < 4 then None
    else
      var passport := digits[..4] + "-" + digits[4..];
      Some(Join([s.surname, s.name, PatronymicText(s.patronymic), ShortDate(s.birthday),
                 passport[..4], passport]))
  }

  /**
   * `SaveToCsv`: the lines written to the target file, one CSV line per
   * record in the given order. The source throws part-way through when a
   * record does not convert; callers here pass only records that do.
   */
  method SaveToCsv(subjects: seq<Subject>) returns (lines: seq<string>)
    requires forall s :: s in subjects ==> ConvertToCsvString(s).Some?
    ensures |lines| == |subjects|
    ensures forall i :: 0 <= i < |lines| ==> ConvertToCsvString(subjects[i]) == Some(lines[i])
  {
    lines := [];
    var i := 0;
    while i < |subjects|
      invariant 0 <= i <= |subjects|
      invariant |lines| == i
      invariant forall j :: 0 <= j < i ==> ConvertToCsvString(subjects[j]) == Some(lines[j])
    {
      lines := lines + [ConvertToCsvString(subjects[i]).value];
      i := i + 1;
    }
  }

  lemma {:induction false} DecimalLength(n: nat, k: nat)
    requires n >= Pow10(k)
    ensures |Decimal(n)| > k
    decreases k
  {
    if k > 0 {
      assert n / 10 >= Pow10(k - 1);
      DecimalLength(n / 10, k - 1);
    }
  }

  /** Every record with a passport of at least four digits converts. */
  lemma ValidRecordConverts(cfg: Config, s: Subject)
    requires ValidSubject(cfg, s) && cfg.minPassportNumber >= 1000
    ensures ConvertToCsvString(s).Some?
  {
    DecimalLength(s.passportNumber, 3);
  }

  /**
   * The CSV line of a valid record has six fields: surname, name,
   * patronymic, short birthday, the first four passport digits, and all
   * passport digits with '-' after the fourth; the serial is a prefix of the
   * last field, and dropping its '-' gives the passport digits back.
   */
  lemma CsvFields(cfg: Config, s: Subject)
    requires ValidSubject(cfg, s) && cfg.minPassportNumber >= 1000
    ensures var digits := Decimal(s.passportNumber);
            && |digits| >= 4
            && ConvertToCsvString(s).Some?
            && Split(ConvertToCsvString(s).value)
               == [s.surname, s.name, PatronymicText(s.patronymic), ShortDate(s.birthday),
                   digits[..4], digits[..4] + "-" + digits[4..]]
    ensures var f := Split(ConvertToCsvString(s).value);
            && f[4] <= f[5] && f[5][..4] + f[5][5..] == Decimal(s.passportNumber)
  {
    var digits := Decimal(s.passportNumber);
    DecimalLength(s.passportNumber, 3);
    var passport := digits[..4] + "-" + digits[4..];
    WellFormedNameHasNoSeparator(s.name);
    WellFormedNameHasNoSeparator(s.surname);
    if s.patronymic.Some? && s.patronymic.value != "" {
      WellFormedNameHasNoSeparator(s.patronymic.value);
    }
    assert Separator !in passport;
    assert passport[..4] == digits[..4];
    var fields := [s.surname, s.name, PatronymicText(s.patronymic), ShortDate(s.birthday),
                   passport[..4], passport];
    SplitJoin(fields);
    assert passport[..4] + passport[5..] == digits;
  }

  // ---- Sort order ----

  /** Ordinal string comparison: -1, 0 or 1, character by character, a proper prefix first. */
  function CompareOrdinal(a: string, b: string): (c: int)
    ensures -1 <= c <= 1
    ensures c == 0 <==> a == b
    decreases |a|
  {
    if a == [] && b == [] then 0
    else if a == [] then -1
    else if b == [] then 1
    else if a[0] < b[0] then -1
    else if a[0] > b[0] then 1
    else
      var c := CompareOrdinal(a[1..], b[1..]);
      assert c == 0 ==> a == [a[0]] + a[1..] == [b[0]] + b[1..] == b;
      c
  }

  lemma {:induction false} CompareOrdinalAntisymmetric(a: string, b: string)
    ensures CompareOrdinal(b, a) == -CompareOrdinal(a, b)
    decreases |a|
  {
    if a != [] && b != [] && a[0] == b[0] {
      CompareOrdinalAntisymmetric(a[1..], b[1..]);
    }
  }

  lemma {:induction false} CompareOrdinalTransitive(a: string, b: string, c: string)
    requires CompareOrdinal(a, b) <= 0 && CompareOrdinal(b, c) <= 0
    ensures CompareOrdinal(a, c) <= 0
    decreases |a|
  {
    if a != [] && b != [] && c != [] && a[0] == b[0] == c[0] {
      CompareOrdinalTransitive(a[1..], b[1..], c[1..]);
    }
  }

  /** `Comparer<string>.Default` on possibly-null strings: null before every string. */
  function CompareNullable(a: Option<string>, b: Option<string>): (c: int)
    ensures -1 <= c <= 1
    ensures c == 0 <==> a == b
  {
    match (a, b)
    case (None, None) => 0
    case (None, Some(_)) => -1
    case (Some(_), None) => 1
    case (Some(x), Some(y)) => CompareOrdinal(x, y)
  }

  /** The four sort keys of a record, all equal. */
  predicate SameKey(a: Subject, b: Subject) {
    a.surname == b.surname && a.name == b.name && a.patronymic == b.patronymic && a.birthday == b.birthday
  }

  /** The composite comparison `OrderBy/ThenBy` applies: the first key that differs decides. */
  function CompareKeys(a: Subject, b: Subject): (c: int)
    ensures -1 <= c <= 1
    ensures c == 0 <==> SameKey(a, b)
  {
    var bySurname := CompareOrdinal(a.surname, b.surname);
    if bySurname != 0 then bySurname
    else
      var byName := CompareOrdinal(a.name, b.name);
      if byName != 0 then byName
      else
        var byPatronymic := CompareNullable(a.patronymic, b.patronymic);
        if byPatronymic != 0 then byPatronymic
        else CompareDates(a.birthday, b.birthday)
  }

  lemma CompareKeysAntisymmetric(a: Subject, b: Subject)
    ensures CompareKeys(b, a) == -CompareKeys(a, b)
  {
    CompareOrdinalAntisymmetric(a.surname, b.surname);
    CompareOrdinalAntisymmetric(a.name, b.name);
    if a.patronymic.Some? && b.patronymic.Some? {
      CompareOrdinalAntisymmetric(a.patronymic.value, b.patronymic.value);
    }
    CompareDatesAntisymmetric(a.birthday, b.birthday);
  }

  lemma CompareNullableAntisymmetric(a: Option<string>, b: Option<string>)
    ensures CompareNullable(b, a) == -CompareNullable(a, b)
  {
    if a.Some? && b.Some? {
      CompareOrdinalAntisymmetric(a.value, b.value);
    }
  }

  lemma CompareNullableTransitive(a: Option<string>, b: Option<string>, c: Option<string>)
    requires CompareNullable(a, b) <= 0 && CompareNullable(b, c) <= 0
    ensures CompareNullable(a, c) <= 0
  {
    if a.Some? && b.Some? && c.Some? {
      CompareOrdinalTransitive(a.value, b.value, c.value);
    }
  }

  lemma CompareKeysTransitive(a: Subject, b: Subject, c: Subject)
    requires CompareKeys(a, b) <= 0 && CompareKeys(b, c) <= 0
    ensures CompareKeys(a, c) <= 0
  {
    CompareOrdinalAntisymmetric(a.surname, b.surname);
    CompareOrdinalAntisymmetric(b.surname, c.surname);
    CompareOrdinalAntisymmetric(a.surname, c.surname);
    CompareOrdinalTransitive(a.surname, b.surname, c.surname);
    if a.surname == b.surname == c.surname {
      CompareOrdinalTransitive(a.name, b.name, c.name);
      CompareOrdinalAntisymmetric(a.name, b.name);
      CompareOrdinalAntisymmetric(b.name, c.name);
      if a.name == b.name == c.name {
        CompareNullableTransitive(a.patronymic, b.patronymic, c.patronymic);
        CompareNullableAntisymmetric(a.patronymic, b.patronymic);
        CompareNullableAntisymmetric(b.patronymic, c.patronymic);
        if a.patronymic == b.patronymic == c.patronymic {
          CompareDatesTransitive(a.birthday, b.birthday, c.birthday);
        }
      }
    }
  }

  predicate Sorted(xs: seq<Subject>) {
    forall i, j :: 0 <= i < j < |xs| ==> CompareKeys(xs[i], xs[j]) <= 0
  }

  /** The records of `xs` whose four keys equal those of `k`, in their order in `xs`. */
  function WithKey(xs: seq<Subject>, k: Subject): seq<Subject>
    decreases |xs|
  {
    if xs == [] then []
    else (if SameKey(xs[0], k) then [xs[0]] else []) + WithKey(xs[1..], k)
  }

  /** Places `x` before the first record whose keys are not smaller than its own. */
  function Insert(x: Subject, ys: seq<Subject>): (r: seq<Subject>)
    ensures |r| == |ys| + 1
    ensures multiset(r) == multiset(ys) + multiset{x}
    decreases |ys|
  {
    if ys == [] || CompareKeys(x, ys[0]) <= 0 then [x] + ys
    else
      assert ys == [ys[0]] + ys[1..];
      [ys[0]] + Insert(x, ys[1..])
  }

  /** The stable sort `OrderBy/ThenBy` performs on the four keys. */
  function OrderByKeys(xs: seq<Subject>): (r: seq<Subject>)
    ensures |r| == |xs|
    ensures multiset(r) == multiset(xs)
    decreases |xs|
  {
    if xs == [] then []
    else
      assert xs == [xs[0]] + xs[1..];
      Insert(xs[0], OrderByKeys(xs[1..]))
  }

  /** Prepending a record no greater than the head of a sorted sequence keeps it sorted. */
  lemma SortedCons(x: Subject, ys: seq<Subject>)
    requires Sorted(ys)
    requires forall j :: 0 <= j < |ys| ==> CompareKeys(x, ys[j]) <= 0
    ensures Sorted([x] + ys)
  {
    var r := [x] + ys;
    forall i, j | 0 <= i < j < |r| ensures CompareKeys(r[i], r[j]) <= 0 {
      if i > 0 {
        assert r[i] == ys[i - 1] && r[j] == ys[j - 1];
      }
    }
  }

  lemma {:induction false} InsertSorted(x: Subject, ys: seq<Subject>)
    requires Sorted(ys)
    ensures Sorted(Insert(x, ys))
    decreases |ys|
  {
    if ys == [] {
    } else if CompareKeys(x, ys[0]) <= 0 {
      forall j | 0 <= j < |ys| ensures CompareKeys(x, ys[j]) <= 0 {
        if j > 0 {
          CompareKeysTransitive(x, ys[0], ys[j]);
        }
      }
      SortedCons(x, ys);
    } else {
      var tail := Insert(x, ys[1..]);
      InsertSorted(x, ys[1..]);
      CompareKeysAntisymmetric(x, ys[0]);
      forall j | 0 <= j < |tail| ensures CompareKeys(ys[0], tail[j]) <= 0 {
        assert tail[j] in multiset(ys[1..]) + multiset{x};
        if tail[j] != x {
          var k :| 0 <= k < |ys[1..]| && ys[1..][k] == tail[j];
          assert ys[k + 1] == tail[j];
        }
      }
      assert Sorted(ys[1..]);
      SortedCons(ys[0], tail);
    }
  }

  /** The result of the sort is ordered by the four keys. */
  lemma {:induction false} OrderByKeysSorted(xs: seq<Subject>)
    ensures Sorted(OrderByKeys(xs))
    decreases |xs|
  {
    if xs != [] {
      OrderByKeysSorted(xs[1..]);
      InsertSorted(xs[0], OrderByKeys(xs[1..]));
    }
  }

  lemma {:induction false} InsertWithKey(x: Subject, ys: seq<Subject>, k: Subject)
    ensures WithKey(Insert(x, ys), k) == (if SameKey(x, k) then [x] else []) + WithKey(ys, k)
    decreases |ys|
  {
    if ys == [] || CompareKeys(x, ys[0]) <= 0 {
      assert ([x] + ys)[1..] == ys;
    } else {
      var tail := Insert(x, ys[1..]);
      InsertWithKey(x, ys[1..], k);
      assert ([ys[0]] + tail)[1..] == tail;
      assert !(SameKey(x, k) && SameKey(ys[0], k));
    }
  }

  /**
   * Stability: for every combination of keys, the records carrying it keep
   * their relative order, as `OrderBy/ThenBy` promise.
   */
  lemma {:induction false} OrderByKeysStable(xs: seq<Subject>, k: Subject)
    ensures WithKey(OrderByKeys(xs), k) == WithKey(xs, k)
    decreases |xs|
  {
    if xs != [] {
      OrderByKeysStable(xs[1..], k);
      InsertWithKey(xs[0], OrderByKeys(xs[1..]), k);
    }
  }

  lemma {:induction false} WithKeyMembers(xs: seq<Subject>, k: Subject)
    ensures forall x :: x in WithKey(xs, k) ==> x in xs && SameKey(x, k)
    ensures forall x :: x in xs && SameKey(x, k) ==> x in WithKey(xs, k)
    decreases |xs|
  {
    if xs != [] {
      WithKeyMembers(xs[1..], k);
      assert xs == [xs[0]] + xs[1..];
    }
  }

  lemma NonEmptyGroup(xs: seq<Subject>)
    requires xs != []
    ensures WithKey(xs, xs[0]) != [] && WithKey(xs, xs[0])[0] == xs[0]
  {
  }

  /** The first record of a sorted sequence is no greater than any record in it. */
  lemma FirstIsSmallest(xs: seq<Subject>, x: Subject)
    requires Sorted(xs) && xs != [] && x in xs
    ensures CompareKeys(xs[0], x) <= 0
  {
    var j :| 0 <= j < |xs| && xs[j] == x;
  }

  lemma SameHeads(ys: seq<Subject>, zs: seq<Subject>)
    requires Sorted(ys) && Sorted(zs) && ys != [] && zs != []
    requires WithKey(ys, ys[0]) == WithKey(zs, ys[0])
    requires WithKey(ys, zs[0]) == WithKey(zs, zs[0])
    ensures ys[0] == zs[0]
  {
    var y, z := ys[0], zs[0];
    NonEmptyGroup(ys);
    NonEmptyGroup(zs);
    WithKeyMembers(zs, y);
    WithKeyMembers(ys, z);
    assert y in WithKey(zs, y);
    assert z in WithKey(ys, z);
    FirstIsSmallest(zs, y);
    FirstIsSmallest(ys, z);
    CompareKeysAntisymmetric(y, z);
    assert SameKey(y, z);
    assert WithKey(zs, y) == [z] + WithKey(zs[1..], y);
  }

  lemma SameTailGroups(ys: seq<Subject>, zs: seq<Subject>, k: Subject)
    requires ys != [] && zs != [] && ys[0] == zs[0]
    requires WithKey(ys, k) == WithKey(zs, k)
    ensures WithKey(ys[1..], k) == WithKey(zs[1..], k)
  {
    var head := if SameKey(ys[0], k) then [ys[0]] else [];
    assert WithKey(ys[1..], k) == WithKey(ys, k)[|head|..];
    assert WithKey(zs[1..], k) == WithKey(zs, k)[|head|..];
  }

  /**
   * Being ordered by the four keys and keeping each key's records in their
   * original order pins a sequence down completely.
   */
  lemma {:induction false} SortedWithSameGroupsAreEqual(ys: seq<Subject>, zs: seq<Subject>)
    requires Sorted(ys) && Sorted(zs)
    requires forall k :: WithKey(ys, k) == WithKey(zs, k)
    ensures ys == zs
    decreases |ys|
  {
    if ys == [] || zs == [] {
      var other := if ys == [] then zs else ys;
      if other != [] {
        NonEmptyGroup(other);
      }
    } else {
      assert WithKey(ys, ys[0]) == WithKey(zs, ys[0]);
      assert WithKey(ys, zs[0]) == WithKey(zs, zs[0]);
      SameHeads(ys, zs);
      forall k ensures WithKey(ys[1..], k) == WithKey(zs[1..], k) {
        SameTailGroups(ys, zs, k);
      }
      SortedWithSameGroupsAreEqual(ys[1..], zs[1..]);
      assert ys == [ys[0]] + ys[1..] && zs == [zs[0]] + zs[1..];
    }
  }

  /**
   * `OrderByKeys` is the one stable sort: any sequence ordered by the keys
   * that keeps every key's records in their original order is its result.
   */
  lemma OrderByKeysIsTheStableSort(xs: seq<Subject>, ys: seq<Subject>)
    requires Sorted(ys)
    requires forall k :: WithKey(ys, k) == WithKey(xs, k)
    ensures ys == OrderByKeys(xs)
  {
    OrderByKeysSorted(xs);
    forall k ensures WithKey(ys, k) == WithKey(OrderByKeys(xs), k) {
      OrderByKeysStable(xs, k);
    }
    SortedWithSameGroupsAreEqual(ys, OrderByKeys(xs));
  }
}
