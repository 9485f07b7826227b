/** Trace files: a writer that maps a moving, page-aligned window of the file, and a reader of
    the varint-prefixed frames it writes. */
module TraceFile {
  import opened Bytes
  import opened Common
  import opened Varint
  import opened Arithmetic

  /** One serialized message on disk. */
  function Frame(payload: seq<byte>): seq<byte> {
    Encode(|payload|) + payload
  }

  /** The lengths fit the 32 bits of the prefix. */
  predicate Frameable(payloads: seq<seq<byte>>) {
    forall i :: 0 <= i < |payloads| ==> |payloads[i]| < UINT32
  }

  /** The lengths are not negative for a reader that takes the prefix as a signed number. */
  predicate Readable(payloads: seq<seq<byte>>) {
    forall i :: 0 <= i < |payloads| ==> |payloads[i]| < 0x8000_0000
  }

  function Frames(payloads: seq<seq<byte>>): seq<byte> {
    if payloads == [] then [] else Frame(payloads[0]) + Frames(payloads[1..])
  }

  lemma {:induction false} FramesConcat(a: seq<seq<byte>>, b: seq<seq<byte>>)
    requires Frameable(a) && Frameable(b)
    ensures Frameable(a + b) && Frames(a + b) == Frames(a) + Frames(b) && Frames([]) == []
    decreases |a|
  {
    if a == [] {
      assert a + b == b;
    } else {
      assert (a + b)[1..] == a[1..] + b;
      FramesConcat(a[1..], b);
      assert Frame(a[0]) + (Frames(a[1..]) + Frames(b)) == Frames(a) + Frames(b);
    }
  }

  lemma NextFrame(messages: seq<seq<byte>>, k: nat)
    requires Frameable(messages) && k < |messages|
    ensures Frameable(messages[..k]) && Frameable(messages[..k + 1])
    ensures Frames(messages[..k + 1]) == Frames(messages[..k]) + Frame(messages[k])
    ensures |Frames(messages[..k])| <= |Frames(messages)|
  {
    var one := [messages[k]];
    assert Frames(one) == Frame(messages[k]) + Frames(one[1..]) && one[1..] == [];
    assert messages[..k + 1] == messages[..k] + one;
    FramesConcat(messages[..k], one);
    assert messages == messages[..k] + messages[k..];
    FramesConcat(messages[..k], messages[k..]);
  }

  // ---------------------------------------------------------------- reading

  datatype ReadResult = Event(payload: seq<byte>, consumed: nat) | Failed

  /** What readTraceEvent does with the unread bytes of the file. */
  function ReadFrame(buf: seq<byte>): (r: ReadResult)
    ensures r.Event? ==> 0 < r.consumed <= |buf| && |r.payload| < 0x8000_0000
  {
    var d := Decode(buf);
    if d.bytes == 0 || d.bytes > |buf| || d.value >= 0x8000_0000 || d.bytes + d.value > |buf| then Failed
    else Event(buf[d.bytes..d.bytes + d.value], d.bytes + d.value)
  }

  /** A frame in front of any other bytes is read back and exactly consumed if and only if its
      payload is shorter than 2^31 bytes. */
  lemma FrameRoundTrip(payload: seq<byte>, rest: seq<byte>)
    requires |payload| < UINT32
    ensures ReadFrame(Frame(payload) + rest) == Event(payload, |Frame(payload)|) <==> |payload| < 0x8000_0000
  {
    var s := Encode(|payload|);
    var buf := Frame(payload) + rest;
    VarintRoundTrip(ToSigned(|payload|), payload + rest);
    assert buf == s + (payload + rest);
    assert buf[|s|..|s| + |payload|] == payload;
  }

  /** The bytes begin with a length of at most five bytes and then the payload. */
  predicate Framed(buf: seq<byte>, n: nat, payload: seq<byte>) {
    && 0 < n <= MAX_VARINT32_BYTES && n + |payload| <= |buf|
    && IsVarint(buf[..n]) && Value(buf[..n]) % UINT32 == |payload| < 0x8000_0000 && buf[n..n + |payload|] == payload
  }

  /** An event is read if and only if a length and as many bytes stand in front; else the reader
      fails. */
  lemma ReadIffFramed(buf: seq<byte>, payload: seq<byte>, consumed: nat)
    ensures ReadFrame(buf) == Event(payload, consumed) <==> exists n: nat :: Framed(buf, n, payload) && consumed == n + |payload|
  {
    hide Decode, Value, IsVarint;
    var d := Decode(buf);
    if ReadFrame(buf) == Event(payload, consumed) {
      DecodeIff(buf, d.bytes);
      assert Framed(buf, d.bytes, payload);
    }
    if n: nat :| Framed(buf, n, payload) && consumed == n + |payload| {
      DecodeIff(buf, n);
    }
  }

  datatype Contents = Events(payloads: seq<seq<byte>>) | Corrupt

  /** Reading until isFinished. */
  function ReadAll(buf: seq<byte>): Contents
    decreases |buf|
  {
    if buf == [] then Events([])
    else
      var r := ReadFrame(buf);
      if r.Failed? then Corrupt
      else
        var rest := ReadAll(buf[r.consumed..]);
        if rest.Corrupt? then Corrupt else Events([r.payload] + rest.payloads)
  }

  /** Reading what was written gives the same list and then the end of the file, if and only if
      every payload is shorter than 2^31 bytes. */
  lemma {:induction false} FramesRoundTrip(payloads: seq<seq<byte>>)
    requires Frameable(payloads)
    ensures ReadAll(Frames(payloads)) == Events(payloads) <==> Readable(payloads)
    decreases |payloads|
  {
    hide ReadFrame;
    if payloads != [] {
      var p, rest := payloads[0], Frames(payloads[1..]);
      FrameRoundTrip(p, rest);
      assert Frames(payloads)[|Frame(p)|..] == rest;
      FramesRoundTrip(payloads[1..]);
      assert [p] + payloads[1..] == payloads;
    }
  }

  lemma SliceBehind(s: seq<byte>, at: nat, skip: nat, len: nat)
    requires at + skip <= |s|
    ensures at + skip + len <= |s| ==> s[at..][skip..skip + len] == s[at + skip..at + skip + len]
    ensures at + skip + len <= |s| ==> s[at..][skip + len..] == s[at + skip + len..]
  {
  }

  class TraceFileReader {
    const file: seq<byte>
    const parses: seq<byte> -> bool  // ParseFromArray accepts these payloads
    var addr: nat                    // m_addr, as an offset in the file
    var size: nat                    // bytes left
    var error: bool

    ghost predicate Valid()
      reads this
    {
      addr + size == |file|
    }

    ghost function Unread(): seq<byte>
      requires Valid()
      reads this
    {
      file[addr..]
    }

    /** init on the contents of a file. */
    constructor (file: seq<byte>, parses: seq<byte> -> bool)
      ensures Valid() && Unread() == file && !error
      ensures this.parses == parses
    {
      this.file, this.parses := file, parses;
      addr, size, error := 0, |file|, false;
    }

    method IsFinished() returns (finished: bool)
      requires Valid()
      ensures finished <==> Unread() == []
    {
      finished := size == 0;
    }

    /** readTraceEvent; `ok` is false where the code throws. */
    method ReadTraceEvent() returns (ok: bool, payload: seq<byte>)
      requires Valid()
      modifies this
      ensures Valid()
      ensures var r := ReadFrame(old(Unread()));
              && ok == (!old(error) && old(Unread()) != [] && r.Event? && parses(r.payload))
              && (ok ==> payload == r.payload && Unread() == old(Unread())[r.consumed..] && !error)
      ensures !ok && old(Unread()) != [] ==> error
      ensures old(error) ==> unchanged(this)
    {
      hide Decode;
      payload := [];
      if error {
        return false, payload;
      }
      if size == 0 {
        return false, payload;
      }
      ghost var before := Unread();
      assert file[addr..addr + size] == before;
      var bytesRead, messageLength := DecodeVarint32(file[addr..addr + size]);
      if bytesRead <= 0 || bytesRead > size {
        error := true;
        return false, payload;
      }
      SliceBehind(file, addr, bytesRead, if messageLength < 0 then 0 else messageLength);
      addr := addr + bytesRead;
      size := size - bytesRead;
      if messageLength > size || messageLength < 0 || !parses(file[addr..addr + messageLength]) {
        error := true;
        return false, payload;
      }
      payload := file[addr..addr + messageLength];
      addr := addr + messageLength;
      size := size - messageLength;
      ok := true;
    }
  }

  // ---------------------------------------------------------------- writing

  const MIB: nat := 0x10_0000

  /** begin + size - 1 in unsigned 64-bit arithmetic. */
  function LastByte(begin: nat, size: nat): nat {
    if begin + size == 0 then UINT64 - 1 else begin + size - 1
  }

  /** isRemapNeeded for a mapped window. */
  predicate OutsideWindow(fileOffset: nat, mappedSize: nat, offset: nat, size: nat) {
    var mappedEnd, end := LastByte(fileOffset, mappedSize), LastByte(offset, size);
    offset < fileOffset || offset > mappedEnd || end < fileOffset || end > mappedEnd
  }

  /** The window remap chooses. */
  function WindowBegin(offset: nat, pageSize: Positive): nat {
    offset / pageSize * pageSize
  }

  function WindowSize(offset: nat, size: nat, pageSize: Positive): nat {
    (size + pageSize - 1 + offset % pageSize) / pageSize * pageSize
  }

  /** The page-aligned window holds the whole request, so the check after mapping passes. */
  lemma WindowHolds(offset: nat, size: nat, pageSize: Positive)
    requires size > 0 && offset + size < UINT64
    ensures var b, n := WindowBegin(offset, pageSize), WindowSize(offset, size, pageSize);
            && b <= offset && offset + size <= b + n && n > 0
            && !OutsideWindow(b, n, offset, size)
            && b % pageSize == 0 && n % pageSize == 0
  {
    var x := size + pageSize - 1 + offset % pageSize;
    assert offset == offset / pageSize * pageSize + offset % pageSize;
    assert x == x / pageSize * pageSize + x % pageSize;
    assert x % pageSize < pageSize;
    UniqueRemainder(offset / pageSize * pageSize, pageSize, offset / pageSize, 0);
    UniqueRemainder(x / pageSize * pageSize, pageSize, x / pageSize, 0);
  }

  class FileTraceSerializer {
    const pageSize: nat
    var file: array<byte>     // the file's bytes; the mapped window shows them directly
    var mapped: bool          // m_addr is not null
    var dataOffset: nat
    var fileOffset: nat
    var size: nat
    ghost var written: seq<byte>

    ghost predicate Valid()
      reads this, file
    {
      && pageSize > 0
      && dataOffset == |written| <= file.Length && file[..dataOffset] == written
      && (mapped ==> size > 0 && fileOffset % pageSize == 0 && fileOffset + size <= file.Length)
    }

    /** The constructor and open; the file may have any contents already. */
    constructor (contents: seq<byte>, pageSize: nat)
      requires pageSize > 0
      ensures Valid() && written == [] && !mapped && fresh(file) && this.pageSize == pageSize
    {
      this.pageSize := pageSize;
      file := new byte[|contents|](i requires 0 <= i < |contents| => contents[i]);
      mapped, dataOffset, fileOffset, size := false, 0, 0, 0;
      written := [];
    }

    predicate IsRemapNeeded(offset: nat, length: nat)
      reads this
    {
      !mapped || OutsideWindow(fileOffset, size, offset, length)
    }

    /** posix_fallocate: the file gets at least this long and keeps its bytes. */
    method Fallocate(length: nat)
      requires Valid()
      modifies this`file
      ensures Valid() && file.Length >= length && file.Length >= old(file.Length)
      ensures file == old(file) || fresh(file)
    {
      if file.Length < length {
        var previous := file;
        file := new byte[length](i reads previous => if 0 <= i < previous.Length then previous[i] else 0);
        assert file[..dataOffset] == previous[..dataOffset];
      }
    }

    /** remap: the exception after the final check cannot be thrown. */
    method Remap(offset: nat, length: nat)
      requires Valid() && length > 0 && offset + length < UINT64
      modifies this`file, this`mapped, this`fileOffset, this`size
      ensures Valid() && (file == old(file) || fresh(file))
      ensures !IsRemapNeeded(offset, length)
    {
      WindowHolds(offset, length, pageSize);
      var pageOffset := offset / pageSize;
      var pages := (length + pageSize - 1 + offset % pageSize) / pageSize;
      mapped := false;
      fileOffset := pageOffset * pageSize;
      size := pages * pageSize;
      Fallocate(fileOffset + size);
      mapped := true;
      assert !IsRemapNeeded(offset, length);
    }

    /** getBuffer: the index in the mapped window of `length` writable bytes. */
    method GetBuffer(length: nat) returns (buffer: nat)
      requires Valid() && length < UINT32 && dataOffset + length + MIB < UINT64
      modifies this`file, this`mapped, this`fileOffset, this`size
      ensures Valid() && (file == old(file) || fresh(file))
      ensures mapped && fileOffset + buffer == dataOffset
      ensures buffer + length <= size && fileOffset + size <= file.Length
    {
      var offset := dataOffset;
      if IsRemapNeeded(offset, length) {
        Remap(offset, Max(MIB, length));
      }
      buffer := offset - fileOffset;
    }

    /** moveDataPointer over bytes just stored at the data pointer. */
    method MoveDataPointer(length: nat)
      requires Valid() && dataOffset + length <= file.Length
      modifies this`dataOffset, this`written
      ensures Valid() && dataOffset == old(dataOffset) + length
      ensures written == old(written) + file[old(dataOffset)..dataOffset]
    {
      assert file[..dataOffset + length] == file[..dataOffset] + file[dataOffset..dataOffset + length];
      written := written + file[dataOffset..dataOffset + length];
      dataOffset := dataOffset + length;
    }

    /** The bytes go to the buffer, and the data pointer over them. */
    method Append(buffer: nat, bytes: seq<byte>)
      requires Valid() && mapped && fileOffset + buffer == dataOffset && buffer + |bytes| <= size
      modifies this`dataOffset, this`written, file
      ensures Valid() && written == old(written) + bytes
    {
      Store(file, fileOffset + buffer, bytes);
      MoveDataPointer(|bytes|);
    }

    /** The same for the length prefix. */
    method AppendLength(buffer: nat, length: nat)
      requires Valid() && mapped && fileOffset + buffer == dataOffset && buffer + MAX_VARINT32_BYTES <= size
      requires length < UINT32
      modifies this`dataOffset, this`written, file
      ensures Valid() && written == old(written) + Encode(length)
    {
      hide Encode, Decode;
      EncodedSize32(length);
      var bytesWritten := EncodeVarint32(file, fileOffset + buffer, MAX_VARINT32_BYTES, ToSigned(length));
      MoveDataPointer(bytesWritten);
    }

    /** serialize of a message, given its encoded bytes; SerializeToArray may refuse them, and
        then the length prefix stays behind alone. */
    method Serialize(message: seq<byte>, serialized: bool) returns (ok: bool)
      requires Valid() && |message| < UINT32 && dataOffset + |message| + 5 + MIB < UINT64
      modifies this, file
      ensures ok == serialized && Valid()
      ensures written == old(written) + if ok then Frame(message) else Encode(|message|)
      ensures file == old(file) || fresh(file)
    {
      hide Encode, Decode, OutsideWindow;
      EncodedSize32(|message|);
      var buffer := GetBuffer(MAX_VARINT32_BYTES);
      AppendLength(buffer, |message|);
      buffer := GetBuffer(|message|);
      if serialized {
        Append(buffer, message);
      }
      ok := serialized;
    }

    /** serialize of raw bytes; the window always has room for them. */
    method SerializeBlob(blob: seq<byte>) returns (ok: bool)
      requires Valid() && |blob| < UINT32 && dataOffset + |blob| + MIB < UINT64
      modifies this, file
      ensures ok && Valid() && written == old(written) + blob
      ensures file == old(file) || fresh(file)
    {
      var buffer := GetBuffer(|blob|);
      var destSize := size - (dataOffset - fileOffset);
      assert destSize >= |blob|;  // what memcpy_s demands
      Append(buffer, blob);
      ok := true;
    }

    /** close: the file is cut at the data pointer, unless ftruncate fails; `synced` tells
        whether fchmod, fsync and close succeed. */
    method Close(truncated: bool, synced: bool) returns (success: bool)
      requires Valid()
      modifies this
      ensures success == (truncated && synced) && !mapped && fresh(file)
      ensures file[..] == if truncated then old(written) else old(file[..])
    {
      var kept, length := file, if truncated then dataOffset else file.Length;
      file := new byte[length](i requires 0 <= i < length <= kept.Length reads kept => kept[i]);
      mapped := false;
      success := truncated && synced;
    }
  }

  /** Writing messages one after the other to a file that may hold anything, and closing it:
      the file then is the concatenation of their frames, whatever the page size. */
  method WriteAll(messages: seq<seq<byte>>, garbage: seq<byte>, pageSize: nat) returns (contents: seq<byte>)
    requires Frameable(messages) && pageSize > 0 && |Frames(messages)| + 2 * UINT32 < UINT64
    ensures contents == Frames(messages)
  {
    hide Frames, Frame;
    var writer := new FileTraceSerializer(garbage, pageSize);
    FramesConcat([], []);
    for k := 0 to |messages|
      invariant writer.Valid() && fresh(writer) && fresh(writer.file)
      invariant Frameable(messages[..k]) && writer.written == Frames(messages[..k])
    {
      NextFrame(messages, k);
      var ok := writer.Serialize(messages[k], true);
    }
    assert messages[..|messages|] == messages;
    var success := writer.Close(true, true);
    contents := writer.file[..];
  }

  lemma ReadAllStep(buf: seq<byte>)
    requires ReadAll(buf).Events?
    ensures ReadAll([]) == Events([])
    ensures var r := ReadFrame(buf);
            buf != [] ==>
              && r.Event? && ReadAll(buf[r.consumed..]).Events?
              && ReadAll(buf).payloads == [r.payload] + ReadAll(buf[r.consumed..]).payloads
  {
    hide ReadFrame;
  }

  lemma Shift(back: seq<seq<byte>>, p: seq<byte>, rest: seq<seq<byte>>)
    ensures back + [p] + rest == back + ([p] + rest)
  {
  }

  /** Reading a file to its end. */
  method ReadBack(contents: seq<byte>, parses: seq<byte> -> bool) returns (back: seq<seq<byte>>)
    requires ReadAll(contents).Events? && forall p :: parses(p)
    ensures back == ReadAll(contents).payloads
  {
    hide ReadFrame, ReadAll;
    ReadAllStep(contents);
    var reader := new TraceFileReader(contents, parses);
    back := [];
    var finished := reader.IsFinished();
    while !finished
      invariant reader.Valid() && fresh(reader) && !reader.error
      invariant finished <==> reader.Unread() == []
      invariant ReadAll(reader.Unread()).Events? && back + ReadAll(reader.Unread()).payloads == ReadAll(contents).payloads
      decreases |reader.Unread()|
    {
      ReadAllStep(reader.Unread());
      var ok, payload := reader.ReadTraceEvent();
      Shift(back, payload, ReadAll(reader.Unread()).payloads);
      back := back + [payload];
      finished := reader.IsFinished();
    }
  }

  /** End to end: what is written is read back. */
  method WriteThenRead(messages: seq<seq<byte>>, garbage: seq<byte>, pageSize: nat, parses: seq<byte> -> bool)
    returns (back: seq<seq<byte>>)
    requires Readable(messages) && pageSize > 0 && |Frames(messages)| + 2 * UINT32 < UINT64
    requires forall p :: parses(p)
    ensures back == messages
  {
    var contents := WriteAll(messages, garbage, pageSize);
    FramesRoundTrip(messages);
    back := ReadBack(contents, parses);
  }
}
