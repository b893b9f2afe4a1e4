// The log as bytes: newline framing, the bounded tail read, line splitting,
// and what they mean for reconciliation.
module LogFile {
  import opened Wrappers
  import opened MarkerLog

  const NEWLINE: Byte := 10
  const CARRIAGE_RETURN: Byte := 13
  const RECONCILE_SCAN_BYTE_CAP: nat := 256 * 1024

  predicate NewlineFree(r: Bytes) {
    NEWLINE !in r
  }

  predicate Framable(records: seq<Bytes>) {
    forall r :: r in records ==> NewlineFree(r)
  }

  // A log file: every record followed by one newline.
  function Frame(records: seq<Bytes>): Bytes {
    if records == [] then [] else records[0] + [NEWLINE] + Frame(records[1..])
  }

  function FindNewline(text: Bytes): (i: Option<nat>)
    ensures i.None? ==> NewlineFree(text)
    ensures i.Some? ==> i.value < |text| && text[i.value] == NEWLINE && NewlineFree(text[..i.value])
  {
    if text == [] then None
    else if text[0] == NEWLINE then Some(0)
    else
      match FindNewline(text[1..])
      case None => None
      case Some(i) => assert text[..i + 1] == [text[0]] + text[1..][..i]; Some(i + 1)
  }

  // Drop everything up to and including the first newline; all of it if none.
  function DropFirstLine(text: Bytes): Bytes {
    match FindNewline(text)
    case Some(i) => text[i + 1..]
    case None => []
  }

  // At most the last `cap` bytes, without the line they may start in.
  function ReadTail(file: Bytes, cap: nat): Bytes {
    var start := if |file| <= cap then 0 else |file| - cap;
    if start > 0 then DropFirstLine(file[start..]) else file
  }

  function StripReturn(line: Bytes): Bytes {
    if line != [] && line[|line| - 1] == CARRIAGE_RETURN then line[..|line| - 1] else line
  }

  // Line splitting as `str::lines` does it: no empty last line, and a carriage
  // return before a newline belongs to the line end.
  function Lines(text: Bytes): seq<Bytes>
    decreases |text|
  {
    if text == [] then []
    else
      match FindNewline(text)
      case None => [text]
      case Some(i) => [StripReturn(text[..i])] + Lines(text[i + 1..])
  }

  function Stripped(records: seq<Bytes>): seq<Bytes> {
    seq(|records|, i requires 0 <= i < |records| => StripReturn(records[i]))
  }

  // Which records the tail read returns: all of them when the file fits, else
  // the longest run of last records that takes up strictly less than `cap`.
  ghost predicate IsWindow(records: seq<Bytes>, cap: nat, k: nat) {
    && k <= |records|
    && (|Frame(records)| <= cap ==> k == 0)
    && (|Frame(records)| > cap ==>
          && 0 < k
          && (k < |records| ==> |Frame(records[k..])| < cap)
          && |Frame(records[k - 1..])| >= cap)
  }

  lemma FindInFirst(r: Bytes, rest: Bytes)
    requires NewlineFree(r)
    ensures FindNewline(r + [NEWLINE] + rest) == Some(|r|)
  {
    var text := r + [NEWLINE] + rest;
    assert text[|r|] == NEWLINE;
    forall n | |r| < n <= |text| ensures NEWLINE in text[..n] {
      assert text[..n][|r|] == NEWLINE;
    }
    forall n | 0 <= n < |r| ensures text[n] != NEWLINE {
      assert text[n] == r[n] && r[n] in r;
    }
  }

  lemma {:induction false} FrameShrinks(records: seq<Bytes>, i: nat, j: nat)
    requires i <= j <= |records|
    ensures |Frame(records[j..])| <= |Frame(records[i..])|
    decreases j - i
  {
    if i < j {
      FrameShrinks(records, i + 1, j);
      assert records[i..][1..] == records[i + 1..];
    }
  }

  lemma LinesFirst(r: Bytes, rest: Bytes)
    requires NewlineFree(r)
    ensures Lines(r + [NEWLINE] + rest) == [StripReturn(r)] + Lines(rest)
  {
    var text := r + [NEWLINE] + rest;
    FindInFirst(r, rest);
    assert text[..|r|] == r && text[|r| + 1..] == rest;
  }

  // Splitting a framed file gives its records back.
  lemma {:induction false} LinesOfFrame(records: seq<Bytes>)
    requires Framable(records)
    ensures Lines(Frame(records)) == Stripped(records)
  {
    if records != [] {
      assert Framable(records[1..]);
      LinesOfFrame(records[1..]);
      LinesFirst(records[0], Frame(records[1..]));
      assert Stripped(records) == [StripReturn(records[0])] + Stripped(records[1..]);
    }
  }

  lemma FirstThen(r: Bytes, rest: Bytes, torn: Bytes)
    ensures (r + [NEWLINE] + rest) + torn == r + [NEWLINE] + (rest + torn)
  {
  }

  lemma StrippedFirst(records: seq<Bytes>)
    requires records != []
    ensures Stripped(records) == [StripReturn(records[0])] + Stripped(records[1..])
  {
  }

  // A last record that is torn off before its newline is a line of its own.
  lemma {:induction false} LinesOfTorn(records: seq<Bytes>, torn: Bytes)
    requires Framable(records) && NewlineFree(torn) && torn != []
    ensures Lines(Frame(records) + torn) == Stripped(records) + [torn]
  {
    if records == [] {
      assert Frame(records) + torn == torn;
      assert Stripped(records) == [];
    } else {
      var first, rest := records[0], records[1..];
      assert Framable(rest) && NewlineFree(first);
      LinesOfTorn(rest, torn);
      FirstThen(first, Frame(rest), torn);
      LinesFirst(first, Frame(rest) + torn);
      StrippedFirst(records);
      assert [StripReturn(first)] + (Stripped(rest) + [torn]) == ([StripReturn(first)] + Stripped(rest)) + [torn];
    }
  }

  // Records that do not end in a carriage return come back as they are.
  lemma PlainLinesOfFrame(records: seq<Bytes>)
    requires Framable(records)
    requires forall r :: r in records && r != [] ==> r[|r| - 1] != CARRIAGE_RETURN
    ensures Lines(Frame(records)) == records
  {
    LinesOfFrame(records);
    forall i | 0 <= i < |records| ensures Stripped(records)[i] == records[i] {
      assert records[i] in records;
    }
  }

  // And of one that does, exactly that byte is lost.
  lemma ReturnIsStripped(r: Bytes)
    requires NewlineFree(r)
    ensures Lines(Frame([r + [CARRIAGE_RETURN]])) == [r]
  {
    var record := r + [CARRIAGE_RETURN];
    assert Framable([record]);
    LinesOfFrame([record]);
    assert record[..|record| - 1] == r;
    assert Stripped([record]) == [r];
  }

  // Reading from any offset and dropping the first line leaves exactly the
  // records that begin after that offset.
  lemma {:induction false} DropLandsOnRecord(records: seq<Bytes>, start: nat) returns (k: nat)
    requires Framable(records) && start <= |Frame(records)|
    ensures k <= |records| && DropFirstLine(Frame(records)[start..]) == Frame(records[k..])
    ensures start < |Frame(records)| ==> 0 < k
    ensures k < |records| ==> |Frame(records)| - |Frame(records[k..])| > start
    ensures 0 < k ==> |Frame(records)| - |Frame(records[k - 1..])| <= start
    ensures k == 0 ==> records == []
  {
    if records == [] {
      k := 0;
    } else {
      var r, rest := records[0], Frame(records[1..]);
      if start <= |r| {
        assert records[0] in records;
        assert forall b :: b in r[start..] ==> b in r;
        FindInFirst(r[start..], rest);
        assert Frame(records)[start..] == r[start..] + [NEWLINE] + rest;
        assert DropFirstLine(Frame(records)[start..]) == rest;
        k := 1;
      } else {
        var start' := start - |r| - 1;
        assert Frame(records)[start..] == rest[start'..];
        var k' := DropLandsOnRecord(records[1..], start');
        k := k' + 1;
        assert records[1..][k'..] == records[k..];
        if 0 < k' {
          assert records[1..][k' - 1..] == records[k - 1..];
        } else {
          assert records[k - 1..] == records;
          assert records[1..] == [];
          assert start' == 0;
          assert records[k - 1..][0..] == records;
        }
      }
    }
  }

  lemma DroppedIsWindow(records: seq<Bytes>, cap: nat, k: nat)
    requires |Frame(records)| > cap && 0 < |Frame(records)| && k <= |records|
    requires 0 < |Frame(records)| - cap < |Frame(records)| ==> 0 < k
    requires k < |records| ==> |Frame(records[k..])| < cap
    requires 0 < k ==> |Frame(records[k - 1..])| >= cap
    requires k == 0 ==> records == []
    ensures IsWindow(records, cap, k)
  {
  }

  lemma WholeIsFramed(records: seq<Bytes>, cap: nat)
    requires |Frame(records)| <= cap
    ensures IsWindow(records, cap, 0) && ReadTail(Frame(records), cap) == Frame(records[0..])
  {
    assert records[0..] == records;
  }

  lemma TailIsFramed(records: seq<Bytes>, cap: nat) returns (k: nat)
    requires Framable(records) && |Frame(records)| > cap
    ensures IsWindow(records, cap, k)
    ensures ReadTail(Frame(records), cap) == Frame(records[k..])
  {
    var start := |Frame(records)| - cap;
    k := DropLandsOnRecord(records, start);
    DroppedIsWindow(records, cap, k);
    assert ReadTail(Frame(records), cap) == DropFirstLine(Frame(records)[start..]);
  }

  lemma LinesOfSuffix(records: seq<Bytes>, k: nat)
    requires Framable(records) && k <= |records|
    ensures Lines(Frame(records[k..])) == Stripped(records[k..])
  {
    assert Framable(records[k..]) by {
      forall r | r in records[k..] ensures r in records {}
    }
    LinesOfFrame(records[k..]);
  }

  // The tail of a framed file is itself framed, and which records it holds is
  // fixed by the cap alone.
  lemma TailIsWindow(records: seq<Bytes>, cap: nat) returns (k: nat)
    requires Framable(records)
    ensures IsWindow(records, cap, k)
    ensures ReadTail(Frame(records), cap) == Frame(records[k..])
    ensures Lines(ReadTail(Frame(records), cap)) == Stripped(records[k..])
  {
    if |Frame(records)| <= cap {
      k := 0;
      WholeIsFramed(records, cap);
    } else {
      k := TailIsFramed(records, cap);
    }
    LinesOfSuffix(records, k);
  }

  lemma {:induction false} FrameAppend(a: seq<Bytes>, b: seq<Bytes>)
    ensures Frame(a + b) == Frame(a) + Frame(b)
  {
    if a == [] {
      assert a + b == b;
    } else {
      FrameAppend(a[1..], b);
      assert (a + b)[1..] == a[1..] + b;
    }
  }

  // The window never moves back when the file grows.
  lemma WindowAdvances(records: seq<Bytes>, appended: seq<Bytes>, cap: nat, k: nat, k': nat)
    requires IsWindow(records, cap, k)
    requires IsWindow(records + appended, cap, k')
    ensures k <= k'
  {
    var all := records + appended;
    FrameAppend(records, appended);
    if k' < k {
      assert all[k'..] == records[k'..] + appended;
      FrameAppend(records[k'..], appended);
      FrameShrinks(records, k', k - 1);
    }
  }

  // `decode` turns one line into an event; lines that do not parse become Other.
  function Decoded(lines: seq<Bytes>, decode: Bytes -> Event): seq<Event> {
    seq(|lines|, i requires 0 <= i < |lines| => decode(lines[i]))
  }

  function LogOf(records: seq<Bytes>, decode: Bytes -> Event): seq<Event> {
    Decoded(Stripped(records), decode)
  }

  lemma LogOfAppend(a: seq<Bytes>, b: seq<Bytes>, decode: Bytes -> Event)
    ensures LogOf(a + b, decode) == LogOf(a, decode) + LogOf(b, decode)
  {
  }

  // What one reconciliation finds in the file.
  function Scan(file: Bytes, cap: nat, decode: Bytes -> Event): Open {
    Unmatched(Decoded(Lines(ReadTail(file, cap)), decode))
  }

  lemma LogOfSuffix(records: seq<Bytes>, decode: Bytes -> Event, k: nat)
    requires k <= |records|
    ensures |LogOf(records, decode)| == |records|
    ensures LogOf(records[k..], decode) == LogOf(records, decode)[k..]
  {
  }

  // Scanning the bytes of the tail is scanning a suffix of the events.
  lemma ScanIsSuffixScan(records: seq<Bytes>, cap: nat, decode: Bytes -> Event) returns (k: nat)
    requires Framable(records)
    ensures IsWindow(records, cap, k)
    ensures |LogOf(records, decode)| == |records|
    ensures Scan(Frame(records), cap, decode) == Unmatched(LogOf(records, decode)[k..])
  {
    k := TailIsWindow(records, cap);
    LogOfSuffix(records, decode, k);
  }

  // Scanning the bytes of the file of `day` is scanning a suffix of the whole log.
  lemma ScanOfTodaysFile(log: seq<Event>, records: seq<Bytes>, cap: nat, decode: Bytes -> Event, day: int,
                         dayOf: int -> int)
    returns (k: nat)
    requires Framable(records) && LogOf(records, decode) == FileOf(log, day, dayOf)
    requires DatesInOrder(log, dayOf) && forall i :: 0 <= i < |log| ==> dayOf(log[i].ts) <= day
    ensures k <= |log| && Scan(Frame(records), cap, decode) == Unmatched(log[k..])
  {
    var start := TodaysFileIsSuffix(log, day, dayOf);
    var window := ScanIsSuffixScan(records, cap, decode);
    k := start + window;
    assert log[start..][window..] == log[k..];
  }

  // The bounded scan invents nothing, keeps the fields, and is complete when
  // the file fits in the cap.
  lemma TailScanSound(records: seq<Bytes>, cap: nat, decode: Bytes -> Event, p: Pair)
    requires Framable(records)
    ensures p in Scan(Frame(records), cap, decode) ==>
              p in Unmatched(LogOf(records, decode)) &&
              Scan(Frame(records), cap, decode)[p] == Unmatched(LogOf(records, decode))[p]
    ensures |Frame(records)| <= cap ==> Scan(Frame(records), cap, decode) == Unmatched(LogOf(records, decode))
  {
    var k := ScanIsSuffixScan(records, cap, decode);
    SuffixSound(LogOf(records, decode), k, p);
    assert k == 0 ==> LogOf(records, decode)[k..] == LogOf(records, decode);
  }

  // Reconciliation is idempotent under the cap: once every pair the first scan
  // found has a clear record appended, in any order and among any records that
  // write no marker, a second scan finds nothing.
  lemma TailScanIdempotent(records: seq<Bytes>, appended: seq<Bytes>, cap: nat, decode: Bytes -> Event)
    requires Framable(records) && Framable(appended)
    requires forall e :: e in LogOf(appended, decode) ==> !e.Written?
    requires forall p :: p in Scan(Frame(records), cap, decode) ==>
               exists e :: e in LogOf(appended, decode) && e.Cleared? && e.key == p
    ensures Scan(Frame(records + appended), cap, decode) == map[]
  {
    var log, added := LogOf(records, decode), LogOf(appended, decode);
    var k := ScanIsSuffixScan(records, cap, decode);
    assert forall p :: p in Unmatched(log[k..]) ==> exists e :: e in added && e.Cleared? && e.key == p;
    LogOfAppend(records, appended, decode);
    var k' := ScanIsSuffixScan(records + appended, cap, decode);
    WindowAdvances(records, appended, cap, k, k');
    ReconcileTwice(log, k, added, k');
  }
}
