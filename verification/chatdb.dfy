/** The iMessage `chat.db` reader: Core Data timestamps and the row loop of
    `ChatDb::poll` (crates/opencrust-channels/src/imessage/chatdb.rs).
    The SQL query itself is not modelled; its result arrives as a
    `QueryOutcome`. */
module ChatDb {
  import opened Common

  /** Seconds from the Unix epoch (1970) to the Apple epoch (2001). */
  const CoreDataEpochOffset: int := 978_307_200

  /** Rust's integer `/` by one billion: the quotient is truncated toward
      zero, unlike Dafny's Euclidean `/`. */
  function SecondsTowardZero(ns: int): (q: int)
    ensures ns >= 0 ==> 0 <= q && q * 1_000_000_000 <= ns < q * 1_000_000_000 + 1_000_000_000
    ensures ns < 0 ==> q <= 0 && q * 1_000_000_000 - 1_000_000_000 < ns <= q * 1_000_000_000
  {
    if ns >= 0 then ns / 1_000_000_000 else -((-ns) / 1_000_000_000)
  }

  /** `core_data_ns_to_unix`: whole seconds of the timestamp (rounded toward
      zero) shifted to the Unix epoch.  The result always fits in an i64. */
  function CoreDataNsToUnix(ns: i64): (u: i64)
    ensures ns >= 0 ==> (u - CoreDataEpochOffset) * 1_000_000_000 <= ns
                         < (u - CoreDataEpochOffset + 1) * 1_000_000_000
    ensures ns < 0 ==> (u - CoreDataEpochOffset - 1) * 1_000_000_000 < ns
                        <= (u - CoreDataEpochOffset) * 1_000_000_000
  {
    SecondsTowardZero(ns) + CoreDataEpochOffset
  }

  /** Later timestamps never convert to earlier seconds. */
  lemma CoreDataNsToUnixMonotone(a: i64, b: i64)
    requires a <= b
    ensures CoreDataNsToUnix(a) <= CoreDataNsToUnix(b)
  {
  }

  /** The two fixed points the tests check: the Apple epoch itself and
      2024-01-01 00:00:00 UTC. */
  lemma CoreDataNsToUnixExamples()
    ensures CoreDataNsToUnix(0) == 978_307_200
    ensures CoreDataNsToUnix(725_760_000 * 1_000_000_000) == 1_704_067_200
  {
  }

  /** One result row: ROWID, the nullable text, the Core Data date and the
      sender handle. */
  datatype Row = Row(rowid: i64, text: Option<string>, date: i64, sender: string)

  /** Reading a row can fail on its own (a column of the wrong type). */
  datatype RowRead = Read(row: Row) | ReadError(reason: string)

  /** What the query produced: a failure to prepare the statement, a failure
      to run it, or the rows in `ORDER BY date` order. */
  datatype QueryOutcome = PrepareFailed | QueryFailed | Rows(rows: seq<RowRead>)

  datatype IncomingMessage = IncomingMessage(rowid: i64, text: string, sender: string, timestamp: i64)

  /** A row that becomes a message: read successfully, with non-empty text. */
  predicate Delivered(r: RowRead) {
    r.Read? && r.row.text.Some? && r.row.text.value != []
  }

  function ToMessage(row: Row): (m: IncomingMessage)
    requires row.text.Some?
    ensures m.rowid == row.rowid && m.text == row.text.value && m.sender == row.sender
    ensures m.timestamp == CoreDataNsToUnix(row.date)
  {
    IncomingMessage(row.rowid, row.text.value, row.sender, CoreDataNsToUnix(row.date))
  }

  /** Reference definition: the messages of the delivered rows, in row order. */
  function Extract(rows: seq<RowRead>): seq<IncomingMessage> {
    if rows == [] then []
    else (if Delivered(rows[0]) then [ToMessage(rows[0].row)] else []) + Extract(rows[1..])
  }

  /** The cursor after one row: every successfully read row counts, delivered
      or not; a failed read leaves it alone. */
  function Advance(cursor: i64, r: RowRead): i64 {
    if r.Read? && r.row.rowid > cursor then r.row.rowid else cursor
  }

  /** Reference definition of the cursor after a batch: the maximum of the old
      cursor and every successfully read ROWID. */
  function CursorAfter(cursor: i64, rows: seq<RowRead>): (c: i64)
    ensures cursor <= c
    ensures forall i :: 0 <= i < |rows| && rows[i].Read? ==> rows[i].row.rowid <= c
    decreases |rows|
  {
    if rows == [] then cursor
    else
      var c := CursorAfter(Advance(cursor, rows[0]), rows[1..]);
      assert forall i :: 1 <= i < |rows| ==> rows[i] == rows[1..][i - 1];
      c
  }

  /** The new cursor is attained: it is the old one or some read ROWID, so
      together with the bounds above it is exactly their maximum. */
  lemma {:induction false} CursorAfterAttained(cursor: i64, rows: seq<RowRead>)
    ensures var c := CursorAfter(cursor, rows);
            c == cursor || exists i :: 0 <= i < |rows| && rows[i].Read? && rows[i].row.rowid == c
    decreases |rows|
  {
    if rows != [] {
      CursorAfterAttained(Advance(cursor, rows[0]), rows[1..]);
      var c := CursorAfter(cursor, rows);
      if c != cursor {
        if c == Advance(cursor, rows[0]) {
          assert rows[0].Read? && rows[0].row.rowid == c;
        } else {
          var i :| 0 <= i < |rows[1..]| && rows[1..][i].Read? && rows[1..][i].row.rowid == c;
          assert rows[i + 1] == rows[1..][i];
        }
      }
    }
  }

  /** `ChatDb::poll` given the query outcome: returns the new messages and
      the new `last_seen_rowid`. */
  method Poll(cursor: i64, q: QueryOutcome) returns (messages: seq<IncomingMessage>, last: i64)
    ensures !q.Rows? ==> messages == [] && last == cursor
    ensures q.Rows? ==> messages == Extract(q.rows) && last == CursorAfter(cursor, q.rows)
    ensures cursor <= last
    ensures forall k :: 0 <= k < |messages| ==> messages[k].text != []
  {
    if !q.Rows? {
      return [], cursor;
    }
    var rows := q.rows;
    messages, last := [], cursor;
    var i := 0;
    while i < |rows|
      invariant 0 <= i <= |rows|
      invariant messages + Extract(rows[i..]) == Extract(rows)
      invariant CursorAfter(last, rows[i..]) == CursorAfter(cursor, rows)
      invariant cursor <= last
      invariant forall k :: 0 <= k < |messages| ==> messages[k].text != []
    {
      PollStep(rows, i, last);
      match rows[i] {
        case Read(row) =>
          if row.text.Some? && row.text.value != [] {
            var m := ToMessage(row);
            assert messages + [m] + Extract(rows[i + 1..]) == messages + ([m] + Extract(rows[i + 1..]));
            messages := messages + [m];
          }
          if row.rowid > last {
            last := row.rowid;
          }
        case ReadError(_) =>
      }
      i := i + 1;
    }
    assert rows[i..] == [];
  }

  /** One turn of the loop: the first remaining row contributes its message
      (if delivered) and its ROWID, and the rest follows. */
  lemma PollStep(rows: seq<RowRead>, i: nat, last: i64)
    requires i < |rows|
    ensures Extract(rows[i..]) == (if Delivered(rows[i]) then [ToMessage(rows[i].row)] else []) + Extract(rows[i + 1..])
    ensures CursorAfter(last, rows[i..]) == CursorAfter(Advance(last, rows[i]), rows[i + 1..])
  {
    assert rows[i..][1..] == rows[i + 1..];
  }

  /** Row order is kept: a batch split in two yields the first part's
      messages followed by the second's. */
  lemma {:induction false} ExtractAppend(a: seq<RowRead>, b: seq<RowRead>)
    ensures Extract(a + b) == Extract(a) + Extract(b)
  {
    if a == [] {
      assert a + b == b;
    } else {
      assert (a + b)[1..] == a[1..] + b;
      ExtractAppend(a[1..], b);
    }
  }

  /** A message is returned iff some delivered row produced it. */
  lemma {:induction false} ExtractMember(rows: seq<RowRead>, m: IncomingMessage)
    ensures m in Extract(rows) <==>
            exists i :: 0 <= i < |rows| && Delivered(rows[i]) && ToMessage(rows[i].row) == m
  {
    if rows != [] {
      ExtractMember(rows[1..], m);
      assert forall i :: 1 <= i < |rows| ==> rows[i] == rows[1..][i - 1];
      if m in Extract(rows[1..]) {
        var i :| 0 <= i < |rows[1..]| && Delivered(rows[1..][i]) && ToMessage(rows[1..][i].row) == m;
        assert rows[i + 1] == rows[1..][i];
      }
    }
  }

  /** Skipped rows (NULL or empty text) still move the cursor past them. */
  lemma SkippedRowAdvances(cursor: i64, rows: seq<RowRead>, i: nat)
    requires i < |rows| && rows[i].Read? && !Delivered(rows[i])
    ensures rows[i].row.rowid <= CursorAfter(cursor, rows)
    ensures Extract(rows) == Extract(rows[..i]) + Extract(rows[i + 1..])
  {
    assert rows == rows[..i] + [rows[i]] + rows[i + 1..];
    ExtractAppend(rows[..i] + [rows[i]], rows[i + 1..]);
    ExtractAppend(rows[..i], [rows[i]]);
  }

  /** Under the query's `ROWID > last_seen_rowid` filter, one successfully
      read row is enough to move the cursor strictly forward. */
  lemma CursorStrictlyAdvances(cursor: i64, rows: seq<RowRead>, i: nat)
    requires i < |rows| && rows[i].Read? && rows[i].row.rowid > cursor
    ensures cursor < CursorAfter(cursor, rows)
  {
  }
}
