// crates/posh-term/src/inflate.rs: `zlib_decompress`, the RFC 1950 wrapper around a DEFLATE stream.
module Zlib {
  import opened Utf8
  import opened Huffmans
  import opened Inflate
  import opened InflateProofs
  import opened InflateStreams
  import opened InflateExact
  import opened InflateLaws
  import opened Adler

  function BigEndian(s: seq<byte>): (v: nat)
    requires |s| == 4
    ensures v < 0x1_0000_0000
  {
    var a: nat, b: nat, c: nat, d: nat := s[0], s[1], s[2], s[3];
    a * 0x100_0000 + b * 0x1_0000 + c * 0x100 + d
  }

  /** Method 8, check bits right, no preset dictionary. */
  predicate HeaderGood(cmf: byte, flg: byte) {
    cmf % 16 == 8 && (cmf * 256 + flg) % 31 == 0 && flg / 32 % 2 == 0
  }

  function Packed(s: Sums): nat {
    s.b * 0x1_0000 + s.a
  }

  function Decompressed(data: seq<byte>, limit: nat): (r: Res<seq<byte>>)
    ensures r.Ok? ==> |r.value| <= limit
  {
    if |data| < 2 then Err(TruncatedInput)
    else if !HeaderGood(data[0], data[1]) then Err(BadHeader)
    else
      var rest := data[2..];
      var r := Stream(rest, 0, [], limit);
      if r.Err? then Err(r.error)
      else if r.value.1 + 4 > |rest| then Err(TruncatedInput)
      else if Packed(Adler32(r.value.0)) != BigEndian(rest[r.value.1..r.value.1 + 4]) then Err(BadChecksum)
      else Ok(r.value.0)
  }

  method Decompress(data: seq<byte>, limit: nat) returns (r: Res<seq<byte>>)
    ensures r == Decompressed(data, limit)
  {
    hide Stream, Adler32;
    if |data| < 2 { return Err(TruncatedInput); }
    if !HeaderGood(data[0], data[1]) { return Err(BadHeader); }
    var rest := data[2..];
    var s := Inflate.Inflate(rest, limit);
    if s.Err? { return Err(s.error); }
    var (out, used) := s.value;
    if used + 4 > |rest| { return Err(TruncatedInput); }
    var sum := Checksum(out);
    if sum != BigEndian(rest[used..used + 4]) { return Err(BadChecksum); }
    return Ok(out);
  }

  /** A zlib stream written for any blocks, with any bytes after it, decompresses to what the blocks
      stand for; a wrong trailer is the only thing that can still be reported. */
  lemma {:induction false} Unpacks(bs: seq<BlockSpec>, cmf: byte, flg: byte, body: seq<byte>, trailer: seq<byte>,
      more: seq<byte>, limit: nat)
    requires StreamOk(bs, [], limit) && StreamAt(body, 0, StreamBits(bs, 0, [], limit))
    requires |body| == (|StreamBits(bs, 0, [], limit)| + 7) / 8 && |trailer| == 4 && HeaderGood(cmf, flg)
    ensures var out := StreamOutput(bs, [], limit);
            Decompressed([cmf, flg] + (body + (trailer + more)), limit) ==
            if BigEndian(trailer) == Packed(Adler32(out)) then Ok(out) else Err(BadChecksum)
  {
    hide Stream, StreamAt, StreamBits, StreamOutput, Adler32, StreamOk, HeaderGood;
    var data := [cmf, flg] + (body + (trailer + more));
    var rest := data[2..];
    assert rest == body + (trailer + more);
    Longer(body, trailer + more, 0, StreamBits(bs, 0, [], limit));
    StreamInflates(bs, rest, 0, [], limit);
    assert rest[|body|..|body| + 4] == trailer;
  }

  /** Bytes after a stream do not change its bits. */
  lemma {:induction false} Longer(data: seq<byte>, more: seq<byte>, pos: nat, bits: seq<nat>)
    requires StreamAt(data, pos, bits)
    ensures StreamAt(data + more, pos, bits)
  {
    forall i | 0 <= i < |bits|
      ensures Bit(data + more, pos + i) == bits[i]
    {
      assert Bit(data, pos + i) == bits[i];
      assert (data + more)[(pos + i) / 8] == data[(pos + i) / 8];
    }
  }

  /** `data` begins with a zlib stream: header, blocks that stand for `o`, and its checksum. */
  ghost predicate Holds(data: seq<byte>, bs: seq<BlockSpec>, limit: nat, o: seq<byte>)
    requires |data| >= 2
  {
    hide StreamOk, StreamBits, StreamOutput, StreamAt, Adler32;
    && StreamOk(bs, [], limit) && StreamAt(data[2..], 0, StreamBits(bs, 0, [], limit))
    && StreamOutput(bs, [], limit) == o
    && var n := 2 + (|StreamBits(bs, 0, [], limit)| + 7) / 8;
       n + 4 <= |data| && BigEndian(data[n..n + 4]) == Packed(Adler32(o))
  }

  /** `zlib_decompress` succeeds on exactly the zlib streams: deflate without a preset dictionary, check bits
      that make the header a multiple of 31, blocks, and the checksum of what they stand for. */
  lemma {:induction false} UnpacksExactly(data: seq<byte>, limit: nat, o: seq<byte>)
    ensures Decompressed(data, limit) == Ok(o) <==>
            && |data| >= 2
            && var cmf: nat, flg: nat := data[0], data[1];
            && cmf % 16 == 8 && (cmf * 256 + flg) % 31 == 0 && (flg as bv8) & 0x20 == 0
            && exists bs :: Holds(data, bs, limit, o)
  {
    hide Stream, StreamAt, StreamBits, StreamOutput, Adler32, StreamOk, BigEndian, Packed;
    if |data| >= 2 {
      Dictionary(data[1]);
      var rest := data[2..];
      if Stream(rest, 0, [], limit).Ok? {
        var (out, n) := Stream(rest, 0, [], limit).value;
        InflatesExactly(rest, limit, out, n);
        var bs :| StreamOk(bs, [], limit) && StreamAt(rest, 0, StreamBits(bs, 0, [], limit))
          && StreamOutput(bs, [], limit) == out && (|StreamBits(bs, 0, [], limit)| + 7) / 8 == n;
        if n + 4 <= |rest| { assert rest[n..n + 4] == data[n + 2..n + 6]; }
        assert Decompressed(data, limit) == Ok(o) ==> Holds(data, bs, limit, o);
      }
      forall bs | Holds(data, bs, limit, o)
        ensures Stream(rest, 0, [], limit) == Ok((o, (|StreamBits(bs, 0, [], limit)| + 7) / 8))
        ensures var n := (|StreamBits(bs, 0, [], limit)| + 7) / 8;
                n + 4 <= |rest| && rest[n..n + 4] == data[n + 2..n + 6]
      {
        StreamInflates(bs, rest, 0, [], limit);
      }
    }
  }

  lemma {:induction false} Dictionary(b: byte)
    ensures (b as bv8) & 0x20 == 0 <==> b / 32 % 2 == 0
  {
    var v := b as bv8;
    assert (v & 0x20 == 0) <==> (v >> 5) & 1 == 0;
    assert (v >> 5) == v / 32;
    assert (v / 32) & 1 == (v / 32) % 2;
  }

  /** A zlib stream cut anywhere before its end is reported as ending early. */
  lemma {:induction false} CutShort(data: seq<byte>, limit: nat, k: nat)
    requires Decompressed(data, limit).Ok? && k < Stream(data[2..], 0, [], limit).value.1 + 6
    ensures k <= |data| && Decompressed(data[..k], limit) == Err(TruncatedInput)
  {
    hide Stream, Adler32;
    if k >= 2 {
      var rest := data[2..];
      var n := Stream(rest, 0, [], limit).value.1;
      assert data[..k][2..] == rest[..k - 2];
      EndsEarly(rest, limit, k - 2);
    }
  }
}
