/**
  The `SerialNumber` record kept by the record store, its CSV row, and the
  store's default ordering (newest first).
 */
module Models {
  import opened Text
  import opened Clock

  /** A stored recognition result; `status` defaults to `"success"`. */
  datatype SerialNumber = SerialNumber(serialNumber: string, confidence: real, timestamp: DateTime,
                                       imagePath: string, status: string := "success")

  /** A record made without a status has status `"success"`. */
  lemma StatusDefault(serial: string, confidence: real, timestamp: DateTime, imagePath: string)
    ensures SerialNumber(serial, confidence, timestamp, imagePath).status == "success"
  {
  }

  /**
    How Python prints the two non-string fields inside an f-string: `str()`
    of the timestamp and of the confidence. Both are foreign here.
   */
  datatype Formatter = Formatter(time: DateTime -> string, number: real -> string) {

    /** Printed timestamps and numbers contain no comma and no line break. */
    ghost predicate Plain() {
      && (forall t {:trigger time(t)} :: ',' !in time(t) && '\n' !in time(t))
      && (forall x {:trigger number(x)} :: ',' !in number(x) && '\n' !in number(x))
    }
  }

  /** The five fields of a row, in header order. */
  function Fields(r: SerialNumber, fmt: Formatter): (fs: seq<string>)
    ensures |fs| == 5
  {
    [fmt.time(r.timestamp), r.serialNumber, fmt.number(r.confidence), r.imagePath, r.status]
  }

  /** A row without its final newline: the fields joined by commas, unquoted. */
  function RowBody(r: SerialNumber, fmt: Formatter): string
  {
    Join(Fields(r, fmt), ',')
  }

  /** `to_csv()`: the row body, then a newline. */
  function ToCsv(r: SerialNumber, fmt: Formatter): (row: string)
    ensures |row| > 0 && row[|row| - 1] == '\n'
  {
    RowBody(r, fmt) + "\n"
  }

  /**
    When no field holds a comma, splitting the row body on commas gives back
    the five fields; when no field holds a line break, the row is one line.
   */
  lemma CsvRowRoundTrip(r: SerialNumber, fmt: Formatter)
    requires forall i :: 0 <= i < 5 ==> ',' !in Fields(r, fmt)[i]
    ensures Split(RowBody(r, fmt), ',') == Fields(r, fmt)
    ensures (forall i :: 0 <= i < 5 ==> '\n' !in Fields(r, fmt)[i]) ==> '\n' !in RowBody(r, fmt)
  {
    SplitJoin(Fields(r, fmt), ',');
    if forall i :: 0 <= i < 5 ==> '\n' !in Fields(r, fmt)[i] {
      BodyWithoutBreak(r, fmt);
    }
  }

  /** A row body holds a line break only if one of its fields does. */
  lemma BodyWithoutBreak(r: SerialNumber, fmt: Formatter)
    requires forall i :: 0 <= i < 5 ==> '\n' !in Fields(r, fmt)[i]
    ensures '\n' !in RowBody(r, fmt)
  {
    JoinWithout(Fields(r, fmt), ',', '\n');
  }

  /**
    Nothing is quoted: with plainly printed numbers and times, a row body
    splits into exactly five fields iff neither the serial number, the image
    path nor the status holds a comma, and into more than five otherwise.
   */
  lemma CsvRowNoQuoting(r: SerialNumber, fmt: Formatter)
    requires fmt.Plain()
    ensures |Split(RowBody(r, fmt), ',')| == 5
            <==> ',' !in r.serialNumber && ',' !in r.imagePath && ',' !in r.status
    ensures ',' in r.serialNumber || ',' in r.imagePath || ',' in r.status
            ==> |Split(RowBody(r, fmt), ',')| > 5
  {
    var fs := Fields(r, fmt);
    SplitJoinFieldCount(fs, ',');
    assert ',' !in fs[0] && ',' !in fs[2];
    if ',' in r.serialNumber {
      assert ',' in fs[1];
    }
    if ',' in r.imagePath {
      assert ',' in fs[3];
    }
    if ',' in r.status {
      assert ',' in fs[4];
    }
  }

  // ---------------------------------------------------------------------------
  // ordering = ['-timestamp']

  /** The sort key of a record: its timestamp as a chronological number. */
  function Age(r: SerialNumber): int
  {
    r.timestamp.Instant()
  }

  /** Keys never increase along the list. */
  predicate Descending<T>(xs: seq<T>, key: T -> int)
  {
    forall i, j :: 0 <= i < j < |xs| ==> key(xs[i]) >= key(xs[j])
  }

  /** A head no smaller than the first key of a descending list keeps it descending. */
  lemma DescendingCons<T>(h: T, t: seq<T>, key: T -> int)
    requires Descending(t, key)
    requires |t| > 0 ==> key(t[0]) <= key(h)
    ensures Descending([h] + t, key)
  {
    var out := [h] + t;
    forall i, j | 0 <= i < j < |out|
      ensures key(out[i]) >= key(out[j])
    {
      if i == 0 && j > 1 {
        assert out[j] == t[j - 1] && key(t[0]) >= key(t[j - 1]);
      }
    }
  }

  /** Inserts `x` into a list already in descending key order, before the first smaller-or-equal key. */
  function InsertDescending<T>(x: T, xs: seq<T>, key: T -> int): (out: seq<T>)
    requires Descending(xs, key)
    ensures Descending(out, key)
    ensures multiset(out) == multiset(xs) + multiset{x}
    ensures |out| > 0 && (out[0] == x || (|xs| > 0 && out[0] == xs[0]))
  {
    if |xs| == 0 then [x]
    else if key(x) >= key(xs[0]) then
      DescendingCons(x, xs, key);
      [x] + xs
    else
      var tail := InsertDescending(x, xs[1..], key);
      assert xs == [xs[0]] + xs[1..];
      DescendingCons(xs[0], tail, key);
      [xs[0]] + tail
  }

  /** Newest first: timestamps never increase along the list. */
  predicate NewestFirst(rs: seq<SerialNumber>)
  {
    Descending(rs, Age)
  }

  /**
    `order_by('-timestamp')`: the records rearranged newest first. Records with
    equal timestamps come in an order the store chooses; this model picks one.
   */
  function OrderByTimestampDesc(rs: seq<SerialNumber>): (out: seq<SerialNumber>)
    ensures NewestFirst(out)
    ensures multiset(out) == multiset(rs)
  {
    if |rs| == 0 then []
    else
      assert rs == [rs[0]] + rs[1..];
      InsertDescending(rs[0], OrderByTimestampDesc(rs[1..]), Age)
  }
}
