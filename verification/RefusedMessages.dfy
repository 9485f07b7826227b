/** What readers make of a file in which a refused message has left its length prefix alone. */
module RefusedMessages {
  import opened Bytes
  import opened Common
  import opened Varint
  import opened TraceFile

  lemma DecodePrefix(n: nat, rest: seq<byte>)
    requires n < UINT32
    ensures Decode(Encode(n) + rest) == Decoded(|Encode(n)|, n)
  {
    hide Decode, Encode;
    VarintRoundTrip(ToSigned(n), rest);
  }

  /** The prefix swallows as many of the bytes behind it as the message would have had. */
  lemma PrefixSwallows(n: nat, rest: seq<byte>)
    requires n < UINT32
    ensures ReadFrame(Encode(n) + rest) ==
            if n < 0x8000_0000 && n <= |rest| then Event(rest[..n], |Encode(n)| + n) else Failed
  {
    hide Decode, Encode;
    DecodePrefix(n, rest);
    Behind(Encode(n), rest, n);
  }

  lemma Behind(s: seq<byte>, rest: seq<byte>, n: nat)
    ensures n <= |rest| ==> (s + rest)[|s|..|s| + n] == rest[..n]
  {}

  function Prepend(payloads: seq<seq<byte>>, c: Contents): Contents {
    if c.Corrupt? then Corrupt else Events(payloads + c.payloads)
  }

  /** Intact frames in front of other bytes are read first. */
  lemma {:induction false} ReadAllBehind(payloads: seq<seq<byte>>, buf: seq<byte>)
    requires Frameable(payloads) && Readable(payloads)
    ensures ReadAll(Frames(payloads) + buf) == Prepend(payloads, ReadAll(buf))
    decreases |payloads|
  {
    if payloads == [] {
      assert Frames(payloads) + buf == buf;
    } else {
      hide ReadFrame;
      var p, rest := payloads[0], Frames(payloads[1..]) + buf;
      assert Frames(payloads) + buf == Frame(p) + rest;
      FrameRoundTrip(p, rest);
      ReadAllBehind(payloads[1..], buf);
      OneMore(p, payloads, ReadAll(buf));
    }
  }

  lemma OneMore(p: seq<byte>, payloads: seq<seq<byte>>, c: Contents)
    requires payloads != [] && payloads[0] == p
    ensures c.Events? ==> [p] + (payloads[1..] + c.payloads) == payloads + c.payloads
  {}

  // ---------------------------------------------------------------- varints as byte strings

  /** Counts the bytes that end a varint and adds up their values. */
  function Ends(s: seq<byte>): (n: nat) {
    if s == [] then 0 else (if s[0] < 0x80 then 1000 + s[0] as int else 0) + Ends(s[1..])
  }

  lemma {:induction false} EndsConcat(a: seq<byte>, b: seq<byte>)
    ensures Ends(a + b) == Ends(a) + Ends(b)
    decreases |a|
  {
    if a == [] {
      assert a + b == b;
    } else {
      assert (a + b)[1..] == a[1..] + b;
      EndsConcat(a[1..], b);
    }
  }

  /** One varint, possibly rotated: exactly one byte ends it, and its last digit is not zero. */
  predicate Rotated(r: seq<byte>, t: nat) {
    0 < t < 0x80 && Ends(r) == 1000 + t && |r| <= MAX_VARINT32_BYTES && (|r| == MAX_VARINT32_BYTES ==> t < 16)
  }

  /** The position of the byte that ends the first varint. */
  function FirstEnd(r: seq<byte>): (i: nat)
    requires Ends(r) > 0
    ensures i < |r| && r[i] < 0x80 && forall j :: 0 <= j < i ==> r[j] >= 0x80
    ensures Ends(r) == 1000 + r[i] as int + Ends(r[i + 1..])
  {
    if r[0] < 0x80 then 0
    else
      var i := FirstEnd(r[1..]);
      assert r[1..][i + 1..] == r[i + 2..];
      i + 1
  }

  /** A varint as written, of a number other than 0. */
  predicate Canonical(v: seq<byte>) {
    Shortest(v) && v[|v| - 1] > 0
  }

  lemma {:induction false} ValueBelow(v: seq<byte>)
    requires Canonical(v)
    ensures Value(v) < (v[|v| - 1] as int + 1) * Pow128(|v| - 1)
    decreases |v|
  {
    if |v| > 1 {
      ValueBelow(v[1..]);
      Scale(v[|v| - 1] as int + 1, Pow128(|v| - 2));
    }
  }

  lemma Scale(a: nat, b: nat)
    ensures a * (0x80 * b) == 0x80 * (a * b)
  {}

  lemma ValueFits(v: seq<byte>)
    requires Canonical(v) && |v| <= MAX_VARINT32_BYTES && (|v| == MAX_VARINT32_BYTES ==> v[|v| - 1] < 16)
    ensures Value(v) < UINT32 && Encode(Value(v)) == v
  {
    hide Pow128, Value, Encode;
    Pow128Values();
    EncodeIff(Value(v), v);
    ValueBelow(v);
    var a, b := v[|v| - 1] as int + 1, Pow128(|v| - 1);
    Bounded(a, b, if |v| == MAX_VARINT32_BYTES then 16 else 0x80, if |v| == MAX_VARINT32_BYTES then 0x1000_0000 else 0x20_0000);
  }

  lemma Bounded(a: nat, b: nat, c: nat, d: nat)
    requires a <= c && b <= d
    ensures a * b <= c * d
  {
    assert a * b <= c * b && c * b <= c * d;
  }

  // ---------------------------------------------------------------- the bytes left over

  /** Two equal readings of a word shifted by itself: what is left over is as long and ends as
      many varints. */
  lemma LeftOver(x: seq<byte>, p: seq<byte>, r: seq<byte>)
    requires x + p == p + r
    ensures |r| == |x| && Ends(r) == Ends(x)
  {
    EndsConcat(x, p);
    EndsConcat(p, r);
  }

  /** A varint in front of intact frames, whatever its rotation, shifts the reading of all of
      them: they never come out as they are. */
  lemma {:induction false} NeverReadBack(r: seq<byte>, t: nat, payloads: seq<seq<byte>>)
    requires Rotated(r, t) && Frameable(payloads) && Readable(payloads)
    ensures ReadAll(r + Frames(payloads)) != Events(payloads)
    decreases |payloads|
  {
    hide ReadFrame, Frames, Frame, Encode;
    var buf := r + Frames(payloads);
    Unfold(r, payloads);
    if payloads != [] && ReadFrame(buf).Event? && ReadFrame(buf).payload == payloads[0] {
      var p, rest := payloads[0], payloads[1..];
      var r' := NextLeftOver(r, t, p, Frames(rest));
      NeverReadBack(r', t, rest);
    }
  }

  lemma Unfold(r: seq<byte>, payloads: seq<seq<byte>>)
    requires Ends(r) > 0
    ensures r + Frames(payloads) != []
    ensures payloads != [] ==> Frames(payloads) == Frame(payloads[0]) + Frames(payloads[1..])
  {}

  /** If the first frame read has the payload that was written, a rotated varint is left over. */
  lemma NextLeftOver(r: seq<byte>, t: nat, p: seq<byte>, rest: seq<byte>) returns (r': seq<byte>)
    requires Rotated(r, t) && |p| < 0x8000_0000
    requires var f := ReadFrame(r + (Frame(p) + rest)); f.Event? && f.payload == p
    ensures Rotated(r', t)
    ensures var buf := r + (Frame(p) + rest);
            buf[ReadFrame(buf).consumed..] == r' + rest
  {
    hide ReadFrame, Encode, Decode, Ends, FirstEnd, Canonical, Value;
    EndIsLast(r, t);
    var v, u := r[..FirstEnd(r) + 1], r[FirstEnd(r) + 1..];
    ValueFits(v);
    var n, x := Value(v), u + v;
    assert r == v + u;
    FrameIsRead(v, u, n, p, rest);
    r' := (x + p)[n..];
    assert x + p == p + r';
    LeftOver(x, p, r');
    EndsConcat(v, u);
    EndsConcat(u, v);
  }

  /** The frame that begins with the varint v is read as one with the payload p. */
  lemma FrameIsRead(v: seq<byte>, u: seq<byte>, n: nat, p: seq<byte>, rest: seq<byte>)
    requires n < UINT32 && Encode(n) == v && |p| < 0x8000_0000
    requires var f := ReadFrame((v + u) + (Frame(p) + rest)); f.Event? && f.payload == p
    ensures n == |p| && n <= |u + v + p| && (u + v + p)[..n] == p
    ensures var buf := (v + u) + (Frame(p) + rest);
            buf[ReadFrame(buf).consumed..] == (u + v + p)[n..] + rest
  {
    hide ReadFrame, Encode, Decode;
    var buf := (v + u) + (Frame(p) + rest);
    var behind := u + (Frame(p) + rest);
    assert buf == v + behind;
    PrefixSwallows(n, behind);
    assert behind == ((u + v) + p) + rest;
  }

  lemma EndIsLast(r: seq<byte>, t: nat)
    requires Rotated(r, t)
    ensures var v := r[..FirstEnd(r) + 1];
            Canonical(v) && v[|v| - 1] == t && |v| <= |r|
  {
    var i := FirstEnd(r);
    if Ends(r[i + 1..]) > 0 {
      var j := FirstEnd(r[i + 1..]);
    }
  }

  // ---------------------------------------------------------------- main results

  lemma PrefixIsRotated(n: nat)
    requires 0 < n < UINT32
    ensures var s := Encode(n); s != [] && Rotated(s, s[|s| - 1])
  {
    EncodedSize32(n);
    PrefixEnds(n, 5);
  }

  lemma {:induction false} PrefixEnds(n: nat, k: nat)
    requires 0 < n && k > 0 && |Encode(n)| <= k
    ensures var s := Encode(n); 0 < s[|s| - 1] < 0x80 && Ends(s) == 1000 + s[|s| - 1] as int
    ensures |Encode(n)| == 5 && n < UINT32 ==> Encode(n)[4] < 16
    decreases n
  {
    if n >= 0x80 {
      PrefixEnds(n / 0x80, k - 1);
      assert Encode(n)[1..] == Encode(n / 0x80);
    }
    if |Encode(n)| == 5 {
      FifthByte(n);
    }
  }

  lemma FifthByte(n: nat)
    requires |Encode(n)| == 5
    ensures Encode(n)[4] == n / 0x80 / 0x80 / 0x80 / 0x80
  {
    var a, b, c, d := n / 0x80, n / 0x80 / 0x80, n / 0x80 / 0x80 / 0x80, n / 0x80 / 0x80 / 0x80 / 0x80;
    assert Encode(n) == [n % 0x80 + 0x80] + Encode(a);
    assert Encode(a) == [a % 0x80 + 0x80] + Encode(b);
    assert Encode(b) == [b % 0x80 + 0x80] + Encode(c);
    assert Encode(c) == [c % 0x80 + 0x80] + Encode(d);
    assert |Encode(d)| == 1;
  }

  /** A message of n bytes refused between others: its prefix takes the n bytes behind it for
      its payload, and the reading goes on from there. */
  lemma RefusedMessageIsRead(before: seq<seq<byte>>, n: nat, after: seq<seq<byte>>)
    requires Frameable(before) && Readable(before) && Frameable(after) && n < UINT32
    ensures var tail := Frames(after);
            ReadAll(Frames(before) + (Encode(n) + tail)) ==
            if n < 0x8000_0000 && n <= |tail| then Prepend(before + [tail[..n]], ReadAll(tail[n..])) else Corrupt
  {
    hide ReadFrame, Encode, Frames;
    var tail := Frames(after);
    var buf := Encode(n) + tail;
    ReadAllBehind(before, buf);
    PrefixSwallows(n, tail);
    assert buf != [];
    if n < 0x8000_0000 && n <= |tail| {
      assert buf[|Encode(n)| + n..] == tail[n..];
    }
  }

  /** No reader gets back exactly the accepted messages: an empty refused message reads as an
      empty event, and any other garbles what follows. */
  lemma RefusedMessageShows(before: seq<seq<byte>>, n: nat, after: seq<seq<byte>>)
    requires Frameable(before) && Readable(before) && Frameable(after) && Readable(after) && n < UINT32
    ensures ReadAll(Frames(before) + (Encode(n) + Frames(after))) != Events(before + after)
    ensures n == 0 ==> ReadAll(Frames(before) + (Encode(n) + Frames(after))) == Events(before + [[]] + after)
    ensures n > 0 && after == [] ==> ReadAll(Frames(before) + (Encode(n) + Frames(after))).Corrupt?
  {
    hide ReadFrame, Frames, Rotated;
    var buf := Encode(n) + Frames(after);
    ReadAllBehind(before, buf);
    RefusedMessageIsRead(before, n, after);
    if n > 0 {
      PrefixIsRotated(n);
      NeverReadBack(Encode(n), Encode(n)[|Encode(n)| - 1], after);
      SamePrefix(before, ReadAll(buf), after);
      FramesConcat([], []);
    } else {
      FramesRoundTrip(after);
      assert Frames(after)[..0] == [] && Frames(after)[0..] == Frames(after);
      assert |before + [[]] + after| != |before + after|;
    }
  }

  lemma SamePrefix(before: seq<seq<byte>>, c: Contents, after: seq<seq<byte>>)
    requires c != Events(after)
    ensures Prepend(before, c) != Events(before + after)
  {
    if c.Events? {
      assert (before + c.payloads)[|before|..] == c.payloads;
      assert (before + after)[|before|..] == after;
    }
  }
}
