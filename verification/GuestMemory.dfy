// Guest linear memory as the host functions use it: bounds-checked reads and
// writes, and the protocol that hands a file to the guest by growing its memory.
module GuestMemory {
  import opened Wrappers

  const TWO_32 := 0x1_0000_0000
  const WASM_PAGE := 65_536

  type U32 = x: int | 0 <= x < 0x1_0000_0000

  const OK := 0
  const OUTPUT_TOO_LARGE := -3
  const INVALID_ARGUMENT := -4
  const INTERNAL_ERROR := -99

  datatype Fault = OutOfBounds(ptr: U32, len: U32, memorySize: nat)

  function AsU32(n: nat): (r: U32)
    ensures n < TWO_32 ==> r == n
  {
    n % TWO_32
  }

  function AsI32(n: U32): int { if n < 0x8000_0000 then n else n - TWO_32 }

  // ---- reads and writes --------------------------------------------------------

  function Zeros(n: nat): Bytes { seq(n, _ => 0) }

  // What a Wasm memory can be: whole pages, at most maxPages of them, and never
  // more than 32-bit addresses reach.
  predicate IsMemory(data: Bytes, maxPages: nat) {
    maxPages <= 65_536 && |data| % WASM_PAGE == 0 && |data| <= maxPages * WASM_PAGE
  }

  function Patch(data: Bytes, at: nat, bytes: Bytes): (r: Bytes)
    requires at + |bytes| <= |data|
    ensures |r| == |data|
    ensures r[at..at + |bytes|] == bytes
    ensures forall i :: 0 <= i < |data| && !(at <= i < at + |bytes|) ==> r[i] == data[i]
  {
    data[..at] + bytes + data[at + |bytes|..]
  }

  // The memory and the number of bytes needed. A buffer that is too small is not
  // an error: nothing is written and the caller learns what it must offer. The
  // length is cast to 32 bits first, and the range check is in 64 bits, where
  // it cannot overflow.
  function WriteBytesSpec(data: Bytes, outPtr: U32, outCap: U32, bytes: Bytes): Result<(Bytes, U32), Fault> {
    var needed := AsU32(|bytes|);
    if needed > outCap then Ok((data, needed))
    else if outPtr + |bytes| > |data| then Err(OutOfBounds(outPtr, needed, |data|))
    else Ok((Patch(data, outPtr, bytes), needed))
  }

  function LittleEndian(v: U32): (r: Bytes)
    ensures |r| == 4
  {
    [(v % 256) as Byte, (v / 256 % 256) as Byte, (v / 65_536 % 256) as Byte, (v / 16_777_216) as Byte]
  }

  function WordAt(data: Bytes, at: nat): U32
    requires at + 4 <= |data|
  {
    data[at] as int + 256 * data[at + 1] as int + 65_536 * data[at + 2] as int + 16_777_216 * data[at + 3] as int
  }

  function WriteU32Spec(data: Bytes, outPtr: U32, value: U32): Result<Bytes, Fault> {
    match WriteBytesSpec(data, outPtr, 4, LittleEndian(value))
    case Ok(written) => Ok(written.0)
    case Err(fault) => Err(fault)
  }

  lemma LittleEndianRoundTrip(v: U32, data: Bytes, at: nat)
    requires at + 4 <= |data| && data[at..at + 4] == LittleEndian(v)
    ensures WordAt(data, at) == v
  {
    var le := LittleEndian(v);
    var word := data[at..at + 4];
    assert data[at] == word[0] && data[at + 1] == word[1] && data[at + 2] == word[2] && data[at + 3] == word[3];
    assert word[0] == le[0] && word[1] == le[1] && word[2] == le[2] && word[3] == le[3];
    assert v == v % 256 + 256 * (v / 256 % 256) + 65_536 * (v / 65_536 % 256) + 16_777_216 * (v / 16_777_216) by {
      assert v / 65_536 == v / 256 / 256 && v / 16_777_216 == v / 65_536 / 256;
    }
  }

  // ---- handing a body to the guest -------------------------------------------

  function OrElse(r: Result<Bytes, Fault>, data: Bytes): Bytes {
    if r.Ok? then r.value else data
  }

  function PagesFor(n: nat): (r: nat)
    ensures n <= r * WASM_PAGE < n + WASM_PAGE
  {
    (n + WASM_PAGE - 1) / WASM_PAGE
  }

  function Grown(data: Bytes, body: Bytes): (r: Bytes)
    ensures |r| == |data| + PagesFor(|body|) * WASM_PAGE
    ensures r[..|data|] == data
  {
    data + Zeros(PagesFor(|body|) * WASM_PAGE)
  }

  // The two out-params, address first.
  function PutWords(data: Bytes, outPtrOut: U32, ptr: U32, outLenOut: U32, len: U32): (int, Bytes) {
    match WriteU32Spec(data, outPtrOut, ptr)
    case Err(_) => (INVALID_ARGUMENT, data)
    case Ok(d) =>
      match WriteU32Spec(d, outLenOut, len)
      case Err(_) => (INVALID_ARGUMENT, d)
      case Ok(d') => (OK, d')
  }

  // The result code and the memory after delivery. `granted`: the runtime has
  // the pages to give.
  function Deliver(data: Bytes, maxPages: nat, body: Bytes, granted: bool, outPtrOut: U32, outLenOut: U32): (int, Bytes)
  {
    if body == [] then
      var d := OrElse(WriteU32Spec(data, outPtrOut, 0), data);
      (OK, OrElse(WriteU32Spec(d, outLenOut, 0), d))
    else if !granted || |data| / WASM_PAGE + PagesFor(|body|) > maxPages then (INTERNAL_ERROR, data)
    else
      match WriteBytesSpec(Grown(data, body), AsU32(|data|), AsU32(|body|), body)
      case Err(_) => (INTERNAL_ERROR, Grown(data, body))
      case Ok(written) => PutWords(written.0, outPtrOut, AsU32(|data|), outLenOut, AsU32(|body|))
  }

  // Growth succeeding puts the old end below 2^32 and makes room for the body.
  lemma GrowthMakesRoom(data: Bytes, maxPages: nat, body: Bytes)
    requires IsMemory(data, maxPages) && body != []
    requires |data| / WASM_PAGE + PagesFor(|body|) <= maxPages
    ensures |data| < TWO_32 && (data != [] ==> |body| < TWO_32)
    ensures |body| <= PagesFor(|body|) * WASM_PAGE
    ensures IsMemory(Grown(data, body), maxPages)
  {
    var had, more := |data| / WASM_PAGE, PagesFor(|body|);
    assert |data| == had * WASM_PAGE;
    assert more >= 1 && |body| <= more * WASM_PAGE;
    assert (had + more) * WASM_PAGE <= maxPages * WASM_PAGE;
  }

  // The code says exactly what happened: the body was written whenever the
  // pages were there, and only an out-param outside the grown memory fails then.
  lemma DeliverCode(data: Bytes, maxPages: nat, body: Bytes, granted: bool, outPtrOut: U32, outLenOut: U32)
    requires IsMemory(data, maxPages) && body != []
    ensures var (code, after) := Deliver(data, maxPages, body, granted, outPtrOut, outLenOut);
            var more := PagesFor(|body|);
            var size := |data| + more * WASM_PAGE;
            && IsMemory(after, maxPages)
            && (code == OK <==>
                (granted && |data| / WASM_PAGE + more <= maxPages && outPtrOut + 4 <= size && outLenOut + 4 <= size))
            && (code == INTERNAL_ERROR <==> !granted || |data| / WASM_PAGE + more > maxPages)
            && (code == INTERNAL_ERROR ==> after == data)
            && (code != INTERNAL_ERROR ==> |after| == size)
            && code in {OK, INTERNAL_ERROR, INVALID_ARGUMENT}
  {
    if granted && |data| / WASM_PAGE + PagesFor(|body|) <= maxPages {
      GrowthMakesRoom(data, maxPages, body);
    }
  }

  predicate InWord(i: int, at: U32) { at <= i < at + 4 }

  lemma PatchElsewhere(data: Bytes, at: nat, bytes: Bytes, lo: nat, hi: nat)
    requires at + |bytes| <= |data| && lo <= hi <= |data|
    requires hi <= at || at + |bytes| <= lo
    ensures Patch(data, at, bytes)[lo..hi] == data[lo..hi]
  {
  }

  // The memory after a successful delivery.
  function Delivered(data: Bytes, body: Bytes, outPtrOut: U32, outLenOut: U32): (after: Bytes)
    requires |data| < TWO_32 && |body| < TWO_32
    requires var size := |data| + PagesFor(|body|) * WASM_PAGE; outPtrOut + 4 <= size && outLenOut + 4 <= size
    ensures |after| == |data| + PagesFor(|body|) * WASM_PAGE
  {
    var written := Patch(Grown(data, body), |data|, body);
    Patch(Patch(written, outPtrOut, LittleEndian(|data|)), outLenOut, LittleEndian(|body|))
  }

  lemma WriteFits(data: Bytes, outPtr: U32, outCap: U32, bytes: Bytes)
    requires |bytes| <= outCap && outPtr + |bytes| <= |data|
    ensures WriteBytesSpec(data, outPtr, outCap, bytes) == Ok((Patch(data, outPtr, bytes), |bytes|))
  {
  }

  lemma PutWordsIs(data: Bytes, outPtrOut: U32, ptr: U32, outLenOut: U32, len: U32)
    requires outPtrOut + 4 <= |data| && outLenOut + 4 <= |data|
    ensures PutWords(data, outPtrOut, ptr, outLenOut, len)
         == (OK, Patch(Patch(data, outPtrOut, LittleEndian(ptr)), outLenOut, LittleEndian(len)))
  {
    WriteFits(data, outPtrOut, 4, LittleEndian(ptr));
    WriteFits(Patch(data, outPtrOut, LittleEndian(ptr)), outLenOut, 4, LittleEndian(len));
  }

  lemma DeliverIs(data: Bytes, maxPages: nat, body: Bytes, outPtrOut: U32, outLenOut: U32)
    requires |data| < TWO_32 && 0 < |body| < TWO_32
    requires |data| / WASM_PAGE + PagesFor(|body|) <= maxPages
    requires var size := |data| + PagesFor(|body|) * WASM_PAGE; outPtrOut + 4 <= size && outLenOut + 4 <= size
    ensures Deliver(data, maxPages, body, true, outPtrOut, outLenOut) ==
        (OK, Delivered(data, body, outPtrOut, outLenOut))
  {
    WriteFits(Grown(data, body), |data|, |body|, body);
    assert AsU32(|data|) == |data| && AsU32(|body|) == |body|;
    PutWordsIs(Patch(Grown(data, body), |data|, body), outPtrOut, |data|, outLenOut, |body|);
  }

  // An out-param that does not lie on the delivered body.
  predicate OffBody(at: U32, data: Bytes, body: Bytes) {
    at + 4 <= |data| || |data| + |body| <= at
  }

  predicate Disjoint(a: U32, b: U32) {
    a + 4 <= b || b + 4 <= a
  }

  // What the guest finds on OK, with two disjoint out-params off the body: they
  // hold its address and length, and the memory the guest had is otherwise kept.
  lemma DeliverContents(data: Bytes, maxPages: nat, body: Bytes, granted: bool, outPtrOut: U32, outLenOut: U32)
    requires IsMemory(data, maxPages) && 0 < |body| < TWO_32
    requires OffBody(outPtrOut, data, body) && OffBody(outLenOut, data, body) && Disjoint(outPtrOut, outLenOut)
    requires Deliver(data, maxPages, body, granted, outPtrOut, outLenOut).0 == OK
    ensures var after := Deliver(data, maxPages, body, granted, outPtrOut, outLenOut).1;
            && |data| + |body| <= |after|
            && outPtrOut + 4 <= |after| && WordAt(after, outPtrOut) == |data|
            && outLenOut + 4 <= |after| && WordAt(after, outLenOut) == |body|
            && after[|data|..|data| + |body|] == body
            && forall i :: 0 <= i < |data| && !InWord(i, outPtrOut) && !InWord(i, outLenOut) ==> after[i] == data[i]
  {
    DeliverCode(data, maxPages, body, granted, outPtrOut, outLenOut);
    GrowthMakesRoom(data, maxPages, body);
    DeliverIs(data, maxPages, body, outPtrOut, outLenOut);
    DeliveredWords(data, body, outPtrOut, outLenOut);
    DeliveredBytes(data, body, outPtrOut, outLenOut);
  }

  lemma DeliveredWords(data: Bytes, body: Bytes, outPtrOut: U32, outLenOut: U32)
    requires |data| < TWO_32 && |body| < TWO_32 && Disjoint(outPtrOut, outLenOut)
    requires var size := |data| + PagesFor(|body|) * WASM_PAGE; outPtrOut + 4 <= size && outLenOut + 4 <= size
    ensures var after := Delivered(data, body, outPtrOut, outLenOut);
            WordAt(after, outPtrOut) == |data| && WordAt(after, outLenOut) == |body|
  {
    var d := Patch(Patch(Grown(data, body), |data|, body), outPtrOut, LittleEndian(|data|));
    var after := Patch(d, outLenOut, LittleEndian(|body|));
    PatchElsewhere(d, outLenOut, LittleEndian(|body|), outPtrOut, outPtrOut + 4);
    LittleEndianRoundTrip(|data|, after, outPtrOut);
    LittleEndianRoundTrip(|body|, after, outLenOut);
  }

  lemma DeliveredBytes(data: Bytes, body: Bytes, outPtrOut: U32, outLenOut: U32)
    requires |data| < TWO_32 && |body| < TWO_32
    requires OffBody(outPtrOut, data, body) && OffBody(outLenOut, data, body)
    requires var size := |data| + PagesFor(|body|) * WASM_PAGE; outPtrOut + 4 <= size && outLenOut + 4 <= size
    ensures var after := Delivered(data, body, outPtrOut, outLenOut);
            && after[|data|..|data| + |body|] == body
            && forall i :: 0 <= i < |data| && !InWord(i, outPtrOut) && !InWord(i, outLenOut) ==> after[i] == data[i]
  {
    var grown := Grown(data, body);
    var written := Patch(grown, |data|, body);
    var d := Patch(written, outPtrOut, LittleEndian(|data|));
    var after := Patch(d, outLenOut, LittleEndian(|body|));
    PatchElsewhere(written, outPtrOut, LittleEndian(|data|), |data|, |data| + |body|);
    PatchElsewhere(d, outLenOut, LittleEndian(|body|), |data|, |data| + |body|);
    forall i | 0 <= i < |data| && !InWord(i, outPtrOut) && !InWord(i, outLenOut) ensures after[i] == data[i] {
      assert after[i] == d[i] == written[i] == grown[i];
    }
  }

  // The plugin library's copy of what was delivered.
  function ReadOwnedBytes(data: Bytes, ptr: U32, len: U32): Bytes
    requires ptr + len <= |data|
  {
    if ptr == 0 || len == 0 then [] else data[ptr..ptr + len]
  }

  // End to end: what the host delivers is what the plugin library returns,
  // exactly when the guest had any memory. In a memory of no pages the body would
  // sit at address 0, which the library takes for "no buffer".
  lemma DeliveredIsRead(data: Bytes, maxPages: nat, body: Bytes, granted: bool, outPtrOut: U32, outLenOut: U32)
    requires IsMemory(data, maxPages) && 0 < |body| < TWO_32
    requires OffBody(outPtrOut, data, body) && OffBody(outLenOut, data, body) && Disjoint(outPtrOut, outLenOut)
    requires Deliver(data, maxPages, body, granted, outPtrOut, outLenOut).0 == OK
    ensures var after := Deliver(data, maxPages, body, granted, outPtrOut, outLenOut).1;
            && outPtrOut + 4 <= |after| && outLenOut + 4 <= |after|
            && WordAt(after, outPtrOut) + WordAt(after, outLenOut) <= |after|
            && (ReadOwnedBytes(after, WordAt(after, outPtrOut), WordAt(after, outLenOut)) == body <==> data != [])
  {
    DeliverContents(data, maxPages, body, granted, outPtrOut, outLenOut);
  }

  lemma ZeroWritten(data: Bytes, at: U32)
    ensures var after := OrElse(WriteU32Spec(data, at, 0), data);
            && |after| == |data|
            && forall i :: 0 <= i < |data| ==> after[i] == if InWord(i, at) && at + 4 <= |data| then 0 else data[i]
  {
    if at + 4 <= |data| {
      WriteFits(data, at, 4, LittleEndian(0));
      assert Patch(data, at, LittleEndian(0))[at..at + 4] == LittleEndian(0) == [0, 0, 0, 0];
      forall i | at <= i < at + 4 ensures Patch(data, at, LittleEndian(0))[i] == 0 {
        assert Patch(data, at, LittleEndian(0))[i] == Patch(data, at, LittleEndian(0))[at..at + 4][i - at];
      }
    }
  }

  lemma ZeroWord(data: Bytes, at: nat)
    requires at + 4 <= |data| && forall i :: at <= i < at + 4 ==> data[i] == 0
    ensures WordAt(data, at) == 0
  {
  }

  // An empty body is always OK. The library's own words start at zero, so it
  // reads the empty file whether or not they lie in memory.
  lemma EmptyIsRead(data: Bytes, maxPages: nat, granted: bool, outPtrOut: U32, outLenOut: U32)
    ensures var (code, after) := Deliver(data, maxPages, [], granted, outPtrOut, outLenOut);
            && code == OK && |after| == |data|
            && (outPtrOut + 4 <= |data| ==> WordAt(after, outPtrOut) == 0)
            && (outLenOut + 4 <= |data| ==> WordAt(after, outLenOut) == 0)
            && ReadOwnedBytes(after, 0, 0) == []
            && forall i :: 0 <= i < |data| && !InWord(i, outPtrOut) && !InWord(i, outLenOut) ==> after[i] == data[i]
  {
    var d := OrElse(WriteU32Spec(data, outPtrOut, 0), data);
    var after := OrElse(WriteU32Spec(d, outLenOut, 0), d);
    assert LittleEndian(0) == [0, 0, 0, 0];
    ZeroWritten(data, outPtrOut);
    ZeroWritten(d, outLenOut);
    if outLenOut + 4 <= |data| {
      ZeroWord(after, outLenOut);
    }
    if outPtrOut + 4 <= |data| {
      ZeroWord(after, outPtrOut);
    }
  }

  // What a guest that asked for a body finds: the code, the words it named for
  // the address and for the length, the body, and the rest of its memory.
  predicate HandsOver(before: Bytes, maxPages: nat, body: Bytes, granted: bool, outPtrOut: U32, outLenOut: U32,
                      code: int, after: Bytes)
  {
    var had, size := |before|, |before| + PagesFor(|body|) * 65_536;
    var fits := granted && size <= maxPages * 65_536;
    if body == [] then
      && code == 0 && |after| == had
      && (outPtrOut + 4 <= had ==> WordAt(after, outPtrOut) == 0)
      && (outLenOut + 4 <= had ==> WordAt(after, outLenOut) == 0)
      && forall i :: 0 <= i < had && !InWord(i, outPtrOut) && !InWord(i, outLenOut) ==> after[i] == before[i]
    else if !fits then code == -99 && after == before
    else
      && |after| == size
      && code == (if outPtrOut + 4 <= size && outLenOut + 4 <= size then 0 else -4)
      && (code == 0 && Disjoint(outPtrOut, outLenOut) && |body| < TWO_32 &&
          OffBody(outPtrOut, before, body) && OffBody(outLenOut, before, body) ==>
            && WordAt(after, outPtrOut) == had && WordAt(after, outLenOut) == |body|
            && had + |body| <= size && after[had..had + |body|] == body
            && forall i :: 0 <= i < had && !InWord(i, outPtrOut) && !InWord(i, outLenOut) ==> after[i] == before[i])
  }

  lemma DeliverHandsOver(data: Bytes, maxPages: nat, body: Bytes, granted: bool, outPtrOut: U32, outLenOut: U32)
    requires IsMemory(data, maxPages)
    ensures var (code, after) := Deliver(data, maxPages, body, granted, outPtrOut, outLenOut);
            HandsOver(data, maxPages, body, granted, outPtrOut, outLenOut, code, after)
  {
    if body == [] {
      EmptyIsRead(data, maxPages, granted, outPtrOut, outLenOut);
    } else {
      DeliverCode(data, maxPages, body, granted, outPtrOut, outLenOut);
      var (code, after) := Deliver(data, maxPages, body, granted, outPtrOut, outLenOut);
      if code == OK && Disjoint(outPtrOut, outLenOut) && |body| < TWO_32 &&
         OffBody(outPtrOut, data, body) && OffBody(outLenOut, data, body)
      {
        DeliverContents(data, maxPages, body, granted, outPtrOut, outLenOut);
      }
    }
  }

  // The whole call: a path outside memory or not UTF-8 is refused, a file that
  // cannot be had gives its own code, both with nothing written; else the bytes
  // prepared for exactly that path are handed over.
  predicate ReadsFile(before: Bytes, maxPages: nat, pathPtr: U32, pathLen: U32, isUtf8: Bytes -> bool,
                      prepare: Bytes -> Result<Bytes, int>, granted: bool, outPtrOut: U32, outLenOut: U32,
                      code: int, after: Bytes)
  {
    if pathPtr + pathLen > |before| || !isUtf8(before[pathPtr..pathPtr + pathLen])
    then code == -4 && after == before
    else match prepare(before[pathPtr..pathPtr + pathLen])
         case Err(c) => code == c && after == before
         case Ok(body) => HandsOver(before, maxPages, body, granted, outPtrOut, outLenOut, code, after)
  }

  lemma ReadFileExact(data: Bytes, maxPages: nat, pathPtr: U32, pathLen: U32, isUtf8: Bytes -> bool,
                      prepare: Bytes -> Result<Bytes, int>, granted: bool, outPtrOut: U32, outLenOut: U32)
    requires IsMemory(data, maxPages)
    ensures var (code, after) :=
              ReadFileSpec(data, maxPages, pathPtr, pathLen, isUtf8, prepare, granted, outPtrOut, outLenOut);
            ReadsFile(data, maxPages, pathPtr, pathLen, isUtf8, prepare, granted, outPtrOut, outLenOut, code, after)
  {
    if pathPtr + pathLen <= |data| && prepare(data[pathPtr..pathPtr + pathLen]).Ok? {
      var body := prepare(data[pathPtr..pathPtr + pathLen]).value;
      DeliverHandsOver(data, maxPages, body, granted, outPtrOut, outLenOut);
    }
  }

  // And a guest of no pages is never handed a body: it can only pass the empty
  // path, which resolves to the working directory and cannot be read.
  lemma NoPagesNoDelivery(maxPages: nat, pathPtr: U32, pathLen: U32, isUtf8: Bytes -> bool,
                          prepare: Bytes -> Result<Bytes, int>, granted: bool, outPtrOut: U32, outLenOut: U32)
    requires prepare([]).Err? && prepare([]).error != OK
    ensures var (code, after) :=
              ReadFileSpec([], maxPages, pathPtr, pathLen, isUtf8, prepare, granted, outPtrOut, outLenOut);
            code != OK && after == []
  {
    var none: Bytes := [];
    if pathPtr + pathLen <= 0 {
      assert none[pathPtr..pathPtr + pathLen] == [];
    }
  }

  // ---- strings ---------------------------------------------------------------

  // The host side of session_id, cwd and the like.
  function ContextReader(data: Bytes, outPtr: U32, outCap: U32, text: Bytes): (U32, Bytes) {
    match WriteBytesSpec(data, outPtr, outCap, text)
    case Ok(written) => (written.1, written.0)
    case Err(_) => (0, data)
  }

  // A Rust vector occupying memory from ptr on, cut to n bytes; cutting to more
  // than it holds does nothing.
  function Truncated(data: Bytes, ptr: U32, len: nat, n: nat): Bytes
    requires ptr + len <= |data|
  {
    data[ptr..ptr + if n < len then n else len]
  }

  const READ_STRING_CAP: nat := 256

  // The plugin library's side: a buffer of 256 bytes at ptr, and if that was too
  // small a second one at ptr2 of the size the host asked for, in the memory as
  // it is by then.
  function ReadString(text: Bytes, data: Bytes, ptr: U32, data2: Bytes, ptr2: U32): Bytes
    requires ptr + READ_STRING_CAP <= |data|
    requires AsU32(|text|) > READ_STRING_CAP ==> ptr2 + AsU32(|text|) <= |data2|
  {
    var (written, after) := ContextReader(data, ptr, READ_STRING_CAP, text);
    if written > READ_STRING_CAP then
      var (again, after2) := ContextReader(data2, ptr2, written, text);
      Truncated(after2, ptr2, written, again)
    else Truncated(after, ptr, READ_STRING_CAP, written)
  }

  // Asking for the size and then fetching gives back exactly the text, at any
  // length that has a 32-bit size.
  lemma ReadStringExact(text: Bytes, data: Bytes, ptr: U32, data2: Bytes, ptr2: U32)
    requires |text| < TWO_32
    requires ptr + READ_STRING_CAP <= |data|
    requires |text| > READ_STRING_CAP ==> ptr2 + |text| <= |data2|
    ensures ReadString(text, data, ptr, data2, ptr2) == text
  {
    if |text| > READ_STRING_CAP {
      WriteFits(data2, ptr2, |text|, text);
      assert ReadString(text, data, ptr, data2, ptr2) == Patch(data2, ptr2, text)[ptr2..ptr2 + |text|];
    } else {
      WriteFits(data, ptr, READ_STRING_CAP, text);
      assert ReadString(text, data, ptr, data2, ptr2) == Patch(data, ptr, text)[ptr..ptr + |text|];
    }
  }

  const ENV_CAP: nat := 1024

  // The plugin library's env(): one buffer of 1024 zero bytes and no second try.
  // None is reported for an empty value.
  function ReadEnv(value: Bytes, data: Bytes, ptr: U32): Result<Option<Bytes>, int>
    requires ptr + ENV_CAP <= |data|
  {
    var (written, after) := match WriteBytesSpec(data, ptr, ENV_CAP, value)
      case Ok(w) => (AsI32(w.1), w.0)
      case Err(_) => (INVALID_ARGUMENT, data);
    if written < 0 then Err(written)
    else if written == 0 then Ok(None)
    else Ok(Some(Truncated(after, ptr, ENV_CAP, written)))
  }

  // The value set in the environment comes back exactly when its length is
  // between 1 and 1024; a longer one comes back as 1024 NUL bytes.
  lemma ReadEnvExact(value: Bytes, data: Bytes, ptr: U32)
    requires |value| < 0x8000_0000
    requires ptr + ENV_CAP <= |data| && data[ptr..ptr + ENV_CAP] == Zeros(ENV_CAP)
    ensures ReadEnv(value, data, ptr) == Ok(Some(value)) <==> 1 <= |value| <= 1024
    ensures |value| > 1024 ==> ReadEnv(value, data, ptr) == Ok(Some(Zeros(1024)))
    ensures value == [] ==> ReadEnv(value, data, ptr) == Ok(None)
  {
    if |value| > ENV_CAP {
      assert Truncated(data, ptr, ENV_CAP, |value|) == Zeros(ENV_CAP);
    }
  }

  // ---- the host functions ------------------------------------------------------

  // One running plugin instance.
  class Guest {
    var data: Bytes
    var outputTooLargeSeen: bool
    const maxPages: nat

    ghost predicate Valid()
      reads this
    {
      IsMemory(data, maxPages)
    }

    constructor (pages: nat, maxPages: nat)
      requires pages <= maxPages <= 65_536
      ensures Valid() && |data| == pages * WASM_PAGE && !outputTooLargeSeen && this.maxPages == maxPages
    {
      this.maxPages := maxPages;
      data := Zeros(pages * WASM_PAGE);
      outputTooLargeSeen := false;
    }

    method ReadBytes(ptr: U32, len: U32) returns (r: Result<Bytes, Fault>)
      ensures r == if ptr + len <= |data| then Ok(data[ptr..ptr + len]) else Err(OutOfBounds(ptr, len, |data|))
    {
      var end := ptr + len;
      if end > |data| {
        return Err(OutOfBounds(ptr, len, |data|));
      }
      return Ok(data[ptr..end]);
    }

    method WriteBytes(outPtr: U32, outCap: U32, bytes: Bytes) returns (r: Result<U32, Fault>)
      requires Valid()
      modifies this`data
      ensures Valid() && |data| == old(|data|)
      ensures match WriteBytesSpec(old(data), outPtr, outCap, bytes)
              case Ok(written) => data == written.0 && r == Ok(written.1)
              case Err(fault) => data == old(data) && r == Err(fault)
    {
      var needed := AsU32(|bytes|);
      if needed > outCap {
        return Ok(needed);
      }
      var end := outPtr + |bytes|;
      if end > |data| {
        return Err(OutOfBounds(outPtr, needed, |data|));
      }
      data := data[..outPtr] + bytes + data[end..];
      return Ok(needed);
    }

    method WriteU32(outPtr: U32, value: U32) returns (r: Result<(), Fault>)
      requires Valid()
      modifies this`data
      ensures Valid() && |data| == old(|data|)
      ensures match WriteU32Spec(old(data), outPtr, value)
              case Ok(after) => data == after && r == Ok(())
              case Err(fault) => data == old(data) && r == Err(fault)
    {
      var written := WriteBytes(outPtr, 4, LittleEndian(value));
      match written {
        case Ok(_) => return Ok(());
        case Err(fault) => return Err(fault);
      }
    }

    method Grow(pages: nat, granted: bool) returns (ok: bool)
      requires Valid()
      modifies this`data
      ensures Valid()
      ensures ok == (granted && old(|data|) / WASM_PAGE + pages <= maxPages)
      ensures data == if ok then old(data) + Zeros(pages * WASM_PAGE) else old(data)
    {
      ok := granted && |data| / WASM_PAGE + pages <= maxPages;
      if ok {
        data := data + Zeros(pages * WASM_PAGE);
        assert |data| / WASM_PAGE * WASM_PAGE == |data|;
      }
    }

    // The part read_file and read_prefix share once they have a body.
    method HandOver(body: Bytes, granted: bool, outPtrOut: U32, outLenOut: U32) returns (code: int)
      requires Valid()
      modifies this`data
      ensures Valid()
      ensures (code, data) == Deliver(old(data), maxPages, body, granted, outPtrOut, outLenOut)
    {
      if body == [] {
        var _ := WriteU32(outPtrOut, 0);
        var _ := WriteU32(outLenOut, 0);
        return OK;
      }
      var currentBytes := |data|;
      var grew := Grow(PagesFor(|body|), granted);
      if !grew { return INTERNAL_ERROR; }
      var writeOffset := AsU32(currentBytes);
      var written := WriteBytes(writeOffset, AsU32(|body|), body);
      if written.Err? { return INTERNAL_ERROR; }
      var ptrWritten := WriteU32(outPtrOut, writeOffset);
      if ptrWritten.Err? { return INVALID_ARGUMENT; }
      var lenWritten := WriteU32(outLenOut, AsU32(|body|));
      if lenWritten.Err? { return INVALID_ARGUMENT; }
      return OK;
    }

    // prepare(path) is the capability check and the bounded read of the file.
    method ReadFile(pathPtr: U32, pathLen: U32, isUtf8: Bytes -> bool, prepare: Bytes -> Result<Bytes, int>,
                    granted: bool, outPtrOut: U32, outLenOut: U32) returns (code: int)
      requires Valid()
      modifies this
      ensures Valid()
      ensures (code, data) ==
          ReadFileSpec(old(data), maxPages, pathPtr, pathLen, isUtf8, prepare, granted, outPtrOut, outLenOut)
      ensures ReadsFile(old(data), maxPages, pathPtr, pathLen, isUtf8, prepare, granted, outPtrOut, outLenOut, code,
                        data)
      ensures outputTooLargeSeen <==> old(outputTooLargeSeen) || code == -3
    {
      ReadFileExact(data, maxPages, pathPtr, pathLen, isUtf8, prepare, granted, outPtrOut, outLenOut);
      var path := ReadBytes(pathPtr, pathLen);
      if path.Err? || !isUtf8(path.value) { return INVALID_ARGUMENT; }
      var prepared := prepare(path.value);
      match prepared {
        case Err(c) =>
          if c == OUTPUT_TOO_LARGE {
            outputTooLargeSeen := true;
          }
          return c;
        case Ok(body) =>
          code := HandOver(body, granted, outPtrOut, outLenOut);
          DeliverNeverTooLarge(old(data), maxPages, body, granted, outPtrOut, outLenOut);
      }
    }

    // The same for a prefix of the file; a prefix is never too large.
    method ReadPrefix(pathPtr: U32, pathLen: U32, isUtf8: Bytes -> bool, prepare: Bytes -> Result<Bytes, int>,
                      granted: bool, outPtrOut: U32, outLenOut: U32) returns (code: int)
      requires Valid()
      modifies this`data
      ensures Valid()
      ensures (code, data) ==
          ReadFileSpec(old(data), maxPages, pathPtr, pathLen, isUtf8, prepare, granted, outPtrOut, outLenOut)
      ensures ReadsFile(old(data), maxPages, pathPtr, pathLen, isUtf8, prepare, granted, outPtrOut, outLenOut, code,
                        data)
    {
      ReadFileExact(data, maxPages, pathPtr, pathLen, isUtf8, prepare, granted, outPtrOut, outLenOut);
      var path := ReadBytes(pathPtr, pathLen);
      if path.Err? || !isUtf8(path.value) { return INVALID_ARGUMENT; }
      var prepared := prepare(path.value);
      match prepared {
        case Err(c) => return c;
        case Ok(body) => code := HandOver(body, granted, outPtrOut, outLenOut);
      }
    }
  }

  lemma DeliverNeverTooLarge(data: Bytes, maxPages: nat, body: Bytes, granted: bool, outPtrOut: U32, outLenOut: U32)
    ensures Deliver(data, maxPages, body, granted, outPtrOut, outLenOut).0 != OUTPUT_TOO_LARGE
  {
  }

  function ReadFileSpec(data: Bytes, maxPages: nat, pathPtr: U32, pathLen: U32, isUtf8: Bytes -> bool,
                        prepare: Bytes -> Result<Bytes, int>, granted: bool, outPtrOut: U32, outLenOut: U32)
    : (int, Bytes)
  {
    if pathPtr + pathLen > |data| || !isUtf8(data[pathPtr..pathPtr + pathLen]) then (INVALID_ARGUMENT, data)
    else
      match prepare(data[pathPtr..pathPtr + pathLen])
      case Err(c) => (c, data)
      case Ok(body) => Deliver(data, maxPages, body, granted, outPtrOut, outLenOut)
  }
}
