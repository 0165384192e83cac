/** The growable TL writer and the TL cursor reader, updated in place
    (`src/core/tl_serial.c`), proved against the byte-level meaning in `TlCodec`. */
module TlSerial {
  import opened Bytes
  import opened TlCodec

  lemma PadBytes(total: nat)
    ensures (4 - total % 4) % 4 == Pad4(total) - total
  {
  }

  /** The three parts of a string on the wire; no padding is no zeros. */
  lemma StringParts(s: bytes, pad: nat)
    requires pad == (4 - (|s| + if |s| < 254 then 1 else 4) % 4) % 4
    ensures EncString(s) == LengthPrefix(|s|) + s + Zeros(pad) && (pad == 0 ==> Zeros(pad) == [])
  {
    hide LengthPrefix, Pad4, Zeros;
    PadBytes(|s| + if |s| < 254 then 1 else 4);
  }

  lemma Joined(a: bytes, b: bytes, c: bytes, d: bytes)
    ensures a + b + c + d == a + (b + c + d)
  {
  }

  class TlWriter {
    var data: array<byte>
    var len: nat

    ghost predicate Valid()
      reads this
    {
      len <= data.Length && (data.Length == 0 || data.Length >= 64)
    }

    ghost function Contents(): bytes
      requires Valid()
      reads this, data
    {
      data[..len]
    }

    constructor ()
      ensures Valid() && fresh(data) && Contents() == []
    {
      data, len := new byte[0], 0;
    }

    /** `writer_ensure`: double the capacity, from 64 when there is none, until `needed`
        more bytes fit. Bytes already written survive the move. */
    method Reserve(needed: nat)
      requires Valid()
      modifies this`data
      ensures Valid() && Contents() == old(Contents()) && len + needed <= data.Length
      ensures len + needed <= old(data.Length) ==> data == old(data)
      ensures len + needed > old(data.Length) ==>
                && fresh(data)
                && data.Length >= 64
                && (data.Length == 64 || data.Length < 2 * (len + needed))
    {
      if len + needed <= data.Length { return; }
      var newCap := if data.Length > 0 then data.Length else 64;
      while newCap < len + needed
        invariant newCap >= 64
        invariant newCap == 64 || newCap < 2 * (len + needed)
        decreases len + needed - newCap
      {
        newCap := newCap * 2;
      }
      var bigger := new byte[newCap];
      forall i | 0 <= i < len { bigger[i] := data[i]; }
      assert bigger[..len] == data[..len];
      data := bigger;
    }

    /** `writer_put`: append `src`. */
    method Put(src: bytes)
      requires Valid()
      modifies this, data
      ensures Valid() && (data == old(data) || fresh(data))
      ensures Contents() == old(Contents()) + src
    {
      Reserve(|src|);
      forall i | 0 <= i < |src| { data[len + i] := src[i]; }
      len := len + |src|;
    }

    method WriteUint32(v: uint32)
      requires Valid()
      modifies this, data
      ensures Valid() && (data == old(data) || fresh(data))
      ensures Contents() == old(Contents()) + Enc32(v)
    {
      Put(Enc32(v));
    }

    method WriteUint64(v: uint64)
      requires Valid()
      modifies this, data
      ensures Valid() && (data == old(data) || fresh(data))
      ensures Contents() == old(Contents()) + Enc64(v)
    {
      Put(Enc64(v));
    }

    method WriteBytes(s: bytes)
      requires Valid()
      modifies this, data
      ensures Valid() && (data == old(data) || fresh(data))
      ensures Contents() == old(Contents()) + EncString(s)
    {
      hide LengthPrefix, Pad4, Zeros, EncString;
      var total := |s| + if |s| < 254 then 1 else 4;
      var pad := (4 - total % 4) % 4;
      StringParts(s, pad);
      ghost var before := Contents();
      var header := LengthPrefix(|s|);
      Put(header);
      if |s| > 0 { Put(s); }
      assert Contents() == before + header + s;
      if pad > 0 { Put(Zeros(pad)); }
      Joined(before, header, s, Zeros(pad));
    }

    /** Write one typed value with the writer call of its type. */
    method WriteItem(x: Item)
      requires Valid() && Writable(x)
      modifies this, data
      ensures Valid() && (data == old(data) || fresh(data))
      ensures Contents() == old(Contents()) + EncItem(x)
    {
      match x
      case Int(i) => WriteUint32(Unsigned32(i));
      case Long(l) => WriteUint64(Unsigned64(l));
      case Int128(b) => Put(b);
      case Int256(b) => Put(b);
      case Bool(b) => WriteUint32(if b then BOOL_TRUE else BOOL_FALSE);
      case VectorBegin(n) => WriteUint32(VECTOR); WriteUint32(n);
      case Str(s) => WriteBytes(s);
    }

    /** Any sequence of writer calls. */
    method WriteItems(xs: seq<Item>)
      requires Valid() && forall i | 0 <= i < |xs| :: Writable(xs[i])
      modifies this, data
      ensures Valid() && (data == old(data) || fresh(data))
      ensures Contents() == old(Contents()) + EncItems(xs)
    {
      hide EncItem, Writable;
      ghost var before := Contents();
      for k := 0 to |xs|
        invariant Valid() && (data == old(data) || fresh(data))
        invariant Contents() + EncItems(xs[k..]) == before + EncItems(xs)
      {
        assert xs[k..][0] == xs[k] && xs[k..][1..] == xs[k + 1..];
        WriteItem(xs[k]);
      }
      assert xs[|xs|..] == [];
    }
  }

  /** The reader borrows a buffer and moves `pos` over it. `mediaDepth` is the counter that
      the media skipper keeps in a static variable. */
  class TlReader {
    const data: bytes
    var pos: nat
    var mediaDepth: nat

    constructor (d: bytes)
      ensures data == d && pos == 0 && mediaDepth == 0
    {
      data, pos, mediaDepth := d, 0, 0;
    }

    /** `tl_reader_ok` */
    predicate Ok()
      reads this
    {
      pos < |data|
    }

    /** `r->len - r->pos` in the unsigned arithmetic of `size_t`. */
    function Left(): nat
      requires pos < |data| + 4
      reads this
    {
      if pos <= |data| then |data| - pos else TWO_TO_64 + |data| - pos
    }

    method ReadUint32() returns (v: uint32)
      modifies this`pos
      ensures v == Read32(data, old(pos)) && pos == After(data, old(pos), 4)
      ensures CursorOk(data, old(pos), pos)
    {
      if pos + 4 > |data| { pos := |data|; return 0; }
      v := Word32(data, pos);
      pos := pos + 4;
    }

    method ReadUint64() returns (v: uint64)
      modifies this`pos
      ensures v == Read64(data, old(pos)) && pos == After(data, old(pos), 8)
    {
      if pos + 8 > |data| { pos := |data|; return 0; }
      v := Word64(data, pos);
      pos := pos + 8;
    }

    /** `tl_read_raw`, and with it the 128- and 256-bit reads. */
    method ReadRawBytes(n: nat) returns (s: bytes)
      modifies this`pos
      ensures s == ReadRaw(data, old(pos), n) && pos == After(data, old(pos), n)
    {
      if pos + n > |data| { pos := |data|; return Zeros(n); }
      s := data[pos..pos + n];
      pos := pos + n;
    }

    /** `tl_read_skip`, and any read whose value is dropped. */
    method Advance(n: nat)
      modifies this`pos
      ensures pos == After(data, old(pos), n)
    {
      if pos + n > |data| { pos := |data|; } else { pos := pos + n; }
    }

    /** `tl_read_bytes` and `tl_read_string`. */
    method ReadBytes() returns (s: Option<bytes>)
      modifies this`pos
      ensures ReadString(data, old(pos)).Some? ==>
              s == Some(ReadString(data, old(pos)).value.0) && pos == ReadString(data, old(pos)).value.1
      ensures ReadString(data, old(pos)).None? ==> s == None && pos == |data|
    {
      if pos + 1 > |data| { pos := |data|; return None; }
      var headerSize, dataLen := 1, data[pos] as int;
      if data[pos] >= 254 {
        if pos + 4 > |data| { pos := |data|; return None; }
        dataLen := data[pos + 1] as int + 0x100 * data[pos + 2] as int + 0x1_0000 * data[pos + 3] as int;
        headerSize := 4;
      }
      var totalRaw := headerSize + dataLen;
      if pos + totalRaw > |data| { pos := |data|; return None; }
      s := Some(data[pos + headerSize..pos + totalRaw]);
      pos := pos + Pad4(totalRaw);
    }

    /** One typed read. */
    method ReadItem(k: Kind) returns (x: Option<Item>)
      modifies this`pos
      ensures (x, pos) == DecItem(k, data, old(pos))
    {
      match k
      case KInt => var v := ReadUint32(); x := Some(Int(Signed32(v)));
      case KLong => var v := ReadUint64(); x := Some(Long(Signed64(v)));
      case KInt128 => var s := ReadRawBytes(16); x := Some(Int128(s));
      case KInt256 => var s := ReadRawBytes(32); x := Some(Int256(s));
      case KBool =>
        var magic := ReadUint32();
        x := if magic == BOOL_TRUE then Some(Bool(true)) else if magic == BOOL_FALSE then Some(Bool(false)) else None;
      case KVectorBegin =>
        var v := ReadUint32();
        var n := ReadUint32();
        x := if v == VECTOR then Some(VectorBegin(n)) else None;
      case KText =>
        var s := ReadBytes();
        x := match s case None => None case Some(t) => Some(Str(t));
    }

    /** Reading back, type by type, what a writer produced returns the written list and
        stops exactly at its end, whatever follows in the buffer. */
    method ReadBack(xs: seq<Item>) returns (ys: seq<Option<Item>>)
      requires forall i | 0 <= i < |xs| :: Writable(xs[i])
      requires At(data, pos, EncItems(xs))
      modifies this`pos
      ensures ys == Present(xs) && pos == old(pos) + |EncItems(xs)|
    {
      hide EncItem, DecItem, Writable;
      ItemsRoundTrip(xs, data, pos);
      ghost var start := pos;
      ys := [];
      assert Kinds(xs)[0..] == Kinds(xs);
      for k := 0 to |xs|
        invariant ys + DecItems(Kinds(xs)[k..], data, pos).0 == DecItems(Kinds(xs), data, start).0
        invariant DecItems(Kinds(xs)[k..], data, pos).1 == DecItems(Kinds(xs), data, start).1
      {
        ghost var ks := Kinds(xs)[k..];
        assert ks[0] == KindOf(xs[k]) && ks[1..] == Kinds(xs)[k + 1..];
        ghost var was := ys;
        var x := ReadItem(KindOf(xs[k]));
        ys := ys + [x];
        assert forall rest: seq<Option<Item>> :: was + ([x] + rest) == ys + rest;
      }
      assert Kinds(xs)[|xs|..] == [];
    }
  }
}
