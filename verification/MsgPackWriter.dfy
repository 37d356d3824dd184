// The encoder over its growable buffer: every write appends exactly the bytes the
// specification names, inside the buffer, and leaves earlier bytes alone.
module MsgPackWriter {
  import opened Utf8
  import opened MsgPack

  // A DataView setter of width `k` at `pos`.
  method SetBE(buf: array<byte>, pos: nat, v: int, k: nat)
    requires pos + k <= buf.Length
    modifies buf
    ensures buf[..pos] == old(buf[..pos]) && buf[pos..pos + k] == BE(v, k) && buf[pos + k..] == old(buf[pos + k..])
  {
    var bytes := BE(v, k);
    forall i | 0 <= i < k {
      buf[pos + i] := bytes[i];
    }
  }

  // `Uint8Array.set`, and the writing half of `TextEncoder.encodeInto`.
  method SetBytes(buf: array<byte>, pos: nat, src: seq<byte>)
    requires pos + |src| <= buf.Length
    modifies buf
    ensures buf[..pos] == old(buf[..pos]) && buf[pos..pos + |src|] == src
    ensures buf[pos + |src|..] == old(buf[pos + |src|..])
  {
    forall i | 0 <= i < |src| {
      buf[pos + i] := src[i];
    }
  }

  // `copyWithin`: the ranges may overlap.
  method CopyWithin(buf: array<byte>, target: nat, start: nat, end: nat)
    requires target <= start <= end <= buf.Length
    modifies buf
    ensures buf[..target] == old(buf[..target]) && buf[target..target + (end - start)] == old(buf[start..end])
    ensures buf[target + (end - start)..] == old(buf[target + (end - start)..])
  {
    forall i | 0 <= i < end - start {
      buf[target + i] := buf[start + i];
    }
  }

  class Writer {
    var buf: array<byte>
    var len: nat

    ghost predicate Valid()
      reads this
    {
      0 < buf.Length && len <= buf.Length
    }

    ghost function Contents(): seq<byte>
      reads this, buf
      requires Valid()
    {
      buf[..len]
    }

    constructor (initialCapacity: nat)
      requires initialCapacity > 0
      ensures Valid() && fresh(buf) && Contents() == []
    {
      buf := new byte[initialCapacity];
      len := 0;
    }

    // Room for `extra` more bytes, by doubling.
    method Ensure(extra: nat)
      requires Valid()
      modifies this`buf
      ensures Valid() && len + extra <= buf.Length && Contents() == old(Contents())
      ensures buf == old(buf) || fresh(buf)
    {
      var needed := len + extra;
      if needed <= buf.Length {
        return;
      }
      var newCap := buf.Length * 2;
      while newCap < needed
        invariant newCap > 0
        decreases needed - newCap
      {
        newCap := newCap * 2;
      }
      var newBuf := new byte[newCap];
      SetBytes(newBuf, 0, buf[..len]);
      buf := newBuf;
    }

    // u8, i8, u16, i16, u32, i32, u64 and i64.
    method Put(v: int, k: nat)
      requires Valid()
      modifies this, buf
      ensures Valid() && Contents() == old(Contents()) + BE(v, k)
      ensures buf == old(buf) || fresh(buf)
    {
      Ensure(k);
      SetBE(buf, len, v, k);
      len := len + k;
    }

    // bytes, f32 and f64.
    method PutBytes(src: seq<byte>)
      requires Valid()
      modifies this, buf
      ensures Valid() && Contents() == old(Contents()) + src
      ensures buf == old(buf) || fresh(buf)
    {
      Ensure(|src|);
      SetBytes(buf, len, src);
      len := len + |src|;
    }

    // Reserve the worst case, encode five bytes ahead, then shift the payload back to
    // sit right after the header its real length needs.
    method EncodeString(s: string)
      requires Valid()
      modifies this, buf
      ensures Valid() && Contents() == old(Contents()) + (StrHeader(|Encode(s)|) + Encode(s))
      ensures buf == old(buf) || fresh(buf)
    {
      hide Encode, BE, StrHeader, Units;
      var maxBytes := Units(s) * 4;
      Ensure(5 + maxBytes);
      var encoded := Encode(s);
      EncodedLength(s);
      PlaceString(encoded);
    }

    // The header's size is known only from the payload's length.
    method PlaceString(encoded: seq<byte>)
      requires Valid() && len + 5 + |encoded| <= buf.Length
      modifies this`len, buf
      ensures Valid() && Contents() == old(Contents()) + (StrHeader(|encoded|) + encoded)
    {
      hide BE, StrHeader;
      var written := |encoded|;
      var headerSize := if written <= 0x1F then 1 else if written <= 0xFF then 2
        else if written <= 0xFFFF then 3 else 5;
      HeaderLength(written);
      ghost var a := buf[..];
      PayloadAhead(encoded, len + 5, len + headerSize);
      ghost var b := buf[..];
      WriteStrHeader(len, written, headerSize);
      Assembled(a, b, buf[..], len, StrHeader(written), encoded);
      len := len + headerSize + written;
    }

    // Write `d` at `payloadStart`, then move it left to `target`.
    method PayloadAhead(d: seq<byte>, payloadStart: nat, target: nat)
      requires target <= payloadStart && payloadStart + |d| <= buf.Length
      modifies buf
      ensures buf[..target] == old(buf[..target]) && buf[target..target + |d|] == d
    {
      SetBytes(buf, payloadStart, d);
      assert buf[..target] == buf[..payloadStart][..target] == old(buf[..payloadStart])[..target];
      if target != payloadStart {
        CopyWithin(buf, target, payloadStart, payloadStart + |d|);
      }
    }

    method WriteStrHeader(pos: nat, n: nat, size: nat)
      requires size == |StrHeader(n)| && pos + size <= buf.Length
      modifies buf
      ensures buf[..pos] == old(buf[..pos]) && buf[pos..pos + size] == StrHeader(n)
      ensures buf[pos + size..] == old(buf[pos + size..])
    {
      hide BE;
      if size == 1 {
        SetBE(buf, pos, 0xA0 + n, 1);
        OneByte(0xA0 + n);
      } else {
        WriteTagged(pos, if size == 2 then 0xD9 else if size == 3 then 0xDA else 0xDB, n, size - 1);
      }
    }

    method WriteTagged(pos: nat, tag: byte, n: nat, k: nat)
      requires pos + 1 + k <= buf.Length
      modifies buf
      ensures buf[..pos] == old(buf[..pos]) && buf[pos..pos + 1 + k] == [tag] + BE(n, k)
      ensures buf[pos + 1 + k..] == old(buf[pos + 1 + k..])
    {
      hide BE;
      ghost var a := buf[..];
      SetBE(buf, pos, tag, 1);
      OneByte(tag);
      ghost var b := buf[..];
      SetBE(buf, pos + 1, n, k);
      Tagged(b, buf[..], pos, tag, BE(n, k));
      assert a[pos + 1 + k..] == a[pos + 1..][k..] && b[pos + 1 + k..] == b[pos + 1..][k..];
    }

    method EncodeBin(data: seq<byte>)
      requires Valid()
      modifies this, buf
      ensures Valid() && Contents() == old(Contents()) + (BinHeader(|data|) + data)
      ensures buf == old(buf) || fresh(buf)
    {
      hide BE;
      var n := |data|;
      var tag, k := 0xC6, 4;
      if n <= 0xFF {
        tag, k := 0xC4, 1;
      } else if n <= 0xFFFF {
        tag, k := 0xC5, 2;
      }
      PutTagged(tag, n, k);
      PutBytes(data);
    }

    // A tag byte and a field of `k` bytes.
    method PutTagged(tag: byte, v: int, k: nat)
      requires Valid()
      modifies this, buf
      ensures Valid() && Contents() == old(Contents()) + ([tag] + BE(v, k))
      ensures buf == old(buf) || fresh(buf)
    {
      hide BE;
      Put(tag, 1);
      OneByte(tag);
      Put(v, k);
    }

    method EncodeExt(tag: int, data: seq<byte>)
      requires Valid()
      modifies this, buf
      ensures Valid() && Contents() == old(Contents()) + (ExtHeader(|data|, tag) + data)
      ensures buf == old(buf) || fresh(buf)
    {
      hide BE;
      var n := |data|;
      if n == 1 || n == 2 || n == 4 || n == 8 || n == 16 {
        var t := if n == 1 then 0xD4 else if n == 2 then 0xD5 else if n == 4 then 0xD6
          else if n == 8 then 0xD7 else 0xD8;
        Put(t, 1);
        OneByte(t);
      } else if n <= 0xFF {
        PutTagged(0xC7, n, 1);
      } else if n <= 0xFFFF {
        PutTagged(0xC8, n, 2);
      } else {
        PutTagged(0xC9, n, 4);
      }
      Put(tag, 1);
      PutBytes(data);
    }

    // The header of an array (`fix` 0x90, `tag` 0xDC) or of a map (0x80, 0xDE).
    method EncodeHeader(fix: byte, tag: byte, n: nat)
      requires Valid() && fix <= 0xF0 && tag < 0xFF
      modifies this, buf
      ensures Valid() && Contents() == old(Contents()) +
        (if n <= 0x0F then [fix + n] else if n <= 0xFFFF then [tag] + BE(n, 2) else [tag + 1] + BE(n, 4))
      ensures buf == old(buf) || fresh(buf)
    {
      hide BE;
      if n <= 0x0F {
        Put(fix + n, 1);
        OneByte(fix + n);
      } else if n <= 0xFFFF {
        PutTagged(tag, n, 2);
      } else {
        PutTagged(tag + 1, n, 4);
      }
    }

    method EncodeNumber(n: int)
      requires Valid()
      modifies this, buf
      ensures Valid() && Contents() == old(Contents()) + EncInt(n)
      ensures buf == old(buf) || fresh(buf)
    {
      hide BE;
      if n >= 0 {
        if n <= 0x7F {
          Put(n, 1);
        } else if n <= 0xFF {
          PutTagged(0xCC, n, 1);
        } else if n <= 0xFFFF {
          PutTagged(0xCD, n, 2);
        } else if n <= 0xFFFF_FFFF {
          PutTagged(0xCE, n, 4);
        } else {
          PutTagged(0xCF, n, 8);
        }
      } else if n >= -32 {
        Put(n, 1);
      } else if n >= -128 {
        PutTagged(0xD0, n, 1);
      } else if n >= -32768 {
        PutTagged(0xD1, n, 2);
      } else if n >= -2147483648 {
        PutTagged(0xD2, n, 4);
      } else {
        PutTagged(0xD3, n, 8);
      }
    }

    // Append the encoding of `v`. `ok` is false where the source throws: exactly when
    // some part of `v` cannot be encoded.
    method EncodeValue(v: Value) returns (ok: bool)
      requires Valid()
      modifies this, buf
      decreases v, 0
      ensures Valid() && (buf == old(buf) || fresh(buf))
      ensures ok == CanEncode(v)
      ensures ok ==> Contents() == old(Contents()) + Enc(v)
    {
      hide EncItems, EncEntries, ArrHeader, MapHeader;
      match v
      case Arr(items) => ok := EncodeArr(items);
      case Obj(es) => ok := EncodeMap(es);
      case MapOf(es) => ok := EncodeMap(es);
      case _ => ok := EncodeLeaf(v);
    }

    method EncodeArr(items: seq<Value>) returns (ok: bool)
      requires Valid()
      modifies this, buf
      decreases items, 1
      ensures Valid() && (buf == old(buf) || fresh(buf))
      ensures ok == forall i :: 0 <= i < |items| ==> CanEncode(items[i])
      ensures ok ==> Contents() == old(Contents()) + (ArrHeader(|items|) + EncItems(items))
    {
      hide BE, EncItems, CanEncode;
      EncodeHeader(0x90, 0xDC, |items|);
      ok := EncodeItems(items);
    }

    method EncodeMap(es: seq<(Value, Value)>) returns (ok: bool)
      requires Valid()
      modifies this, buf
      decreases es, 1
      ensures Valid() && (buf == old(buf) || fresh(buf))
      ensures ok == forall i :: 0 <= i < |es| ==> CanEncode(es[i].0) && CanEncode(es[i].1)
      ensures ok ==> Contents() == old(Contents()) + (MapHeader(|es|) + EncEntries(es))
    {
      hide BE, EncEntries, CanEncode;
      EncodeHeader(0x80, 0xDE, |es|);
      ok := EncodeEntries(es);
    }

    method EncodeLeaf(v: Value) returns (ok: bool)
      requires Valid() && !v.Arr? && !v.Obj? && !v.MapOf?
      modifies this, buf
      ensures Valid() && (buf == old(buf) || fresh(buf))
      ensures ok == CanEncode(v)
      ensures ok ==> Contents() == old(Contents()) + Enc(v)
    {
      hide BE, EncInt, StrHeader, BinHeader, ExtHeader;
      ok := true;
      match v
      case Undefined => PutRaw(0xC0, []);
      case Null => PutRaw(0xC0, []);
      case Bool(b) => PutRaw(if b then 0xC3 else 0xC2, []);
      case Int(n) => EncodeNumber(n);
      case NegZero => EncodeNumber(0);
      case Double(bits) => PutRaw(0xCB, bits);
      case BigInt(n) =>
        if n >= 0 && n <= 0xFFFF_FFFF_FFFF_FFFF {
          PutTagged(0xCF, n, 8);
        } else if n < 0 && n >= -0x8000_0000_0000_0000 {
          PutTagged(0xD3, n, 8);
        } else {
          ok := false;
        }
      case Str(s) => EncodeString(s);
      case Bin(data) => EncodeBin(data);
      case Ext(tag, data) => EncodeExt(tag, data);
      case Other => ok := false;
    }

    method PutRaw(tag: byte, bits: seq<byte>)
      requires Valid()
      modifies this, buf
      ensures Valid() && Contents() == old(Contents()) + ([tag] + bits)
      ensures buf == old(buf) || fresh(buf)
    {
      Put(tag, 1);
      OneByte(tag);
      PutBytes(bits);
    }

    method EncodeItems(items: seq<Value>) returns (ok: bool)
      requires Valid()
      modifies this, buf
      decreases items, 0
      ensures Valid() && (buf == old(buf) || fresh(buf))
      ensures ok == forall i :: 0 <= i < |items| ==> CanEncode(items[i])
      ensures ok ==> Contents() == old(Contents()) + EncItems(items)
    {
      hide Enc;
      for i := 0 to |items|
        invariant Valid() && (buf == old(buf) || fresh(buf))
        invariant forall j :: 0 <= j < i ==> CanEncode(items[j])
        invariant Contents() == old(Contents()) + EncItems(items[..i])
      {
        EncItemsSnoc(items[..i], items[i]);
        assert items[..i + 1] == items[..i] + [items[i]];
        ok := EncodeValue(items[i]);
        if !ok {
          return;
        }
      }
      assert items[..|items|] == items;
      ok := true;
    }

    method EncodeEntries(es: seq<(Value, Value)>) returns (ok: bool)
      requires Valid()
      modifies this, buf
      decreases es, 0
      ensures Valid() && (buf == old(buf) || fresh(buf))
      ensures ok == forall i :: 0 <= i < |es| ==> CanEncode(es[i].0) && CanEncode(es[i].1)
      ensures ok ==> Contents() == old(Contents()) + EncEntries(es)
    {
      hide EncPair;
      for i := 0 to |es|
        invariant Valid() && (buf == old(buf) || fresh(buf))
        invariant forall j :: 0 <= j < i ==> CanEncode(es[j].0) && CanEncode(es[j].1)
        invariant Contents() == old(Contents()) + EncEntries(es[..i])
      {
        EncEntriesSnoc(es[..i], es[i]);
        assert es[..i + 1] == es[..i] + [es[i]];
        ok := EncodePair(es[i]);
        if !ok {
          return;
        }
      }
      assert es[..|es|] == es;
      ok := true;
    }

    method EncodePair(e: (Value, Value)) returns (ok: bool)
      requires Valid()
      modifies this, buf
      decreases e, 0
      ensures Valid() && (buf == old(buf) || fresh(buf))
      ensures ok == (CanEncode(e.0) && CanEncode(e.1))
      ensures ok ==> Contents() == old(Contents()) + EncPair(e)
    {
      hide Enc, CanEncode;
      ok := EncodeValue(e.0);
      if ok {
        ok := EncodeValue(e.1);
      }
    }
  }

  // `encode`: the bytes of `v`, or nothing where the source throws.
  method EncodeToBytes(v: Value) returns (ok: bool, bytes: seq<byte>)
    ensures ok == CanEncode(v)
    ensures ok ==> bytes == Enc(v)
  {
    hide Enc, CanEncode;
    var w := new Writer(1024);
    ok := w.EncodeValue(v);
    bytes := w.buf[..w.len];
  }

  lemma {:induction false} EncItemsSnoc(items: seq<Value>, v: Value)
    ensures EncItems(items + [v]) == EncItems(items) + Enc(v)
  {
    hide Enc;
    if items == [] {
      assert [v][1..] == [];
    } else {
      assert (items + [v])[1..] == items[1..] + [v];
      EncItemsSnoc(items[1..], v);
    }
  }

  lemma {:induction false} EncEntriesSnoc(es: seq<(Value, Value)>, e: (Value, Value))
    ensures EncEntries(es + [e]) == EncEntries(es) + EncPair(e)
  {
    hide EncPair;
    if es == [] {
      assert [e][1..] == [];
    } else {
      assert (es + [e])[1..] == es[1..] + [e];
      EncEntriesSnoc(es[1..], e);
    }
  }

  lemma HeaderLength(n: nat)
    ensures |StrHeader(n)| == if n <= 0x1F then 1 else if n <= 0xFF then 2 else if n <= 0xFFFF then 3 else 5
  {
  }

  lemma OneByte(n: nat)
    requires n < 256
    ensures BE(n, 1) == [n]
  {
  }

  lemma Tagged(b: seq<byte>, c: seq<byte>, pos: nat, tag: byte, bytes: seq<byte>)
    requires |c| == |b| && pos + 1 + |bytes| <= |b| && b[pos..pos + 1] == [tag]
    requires c[..pos + 1] == b[..pos + 1] && c[pos + 1..pos + 1 + |bytes|] == bytes
    ensures c[..pos] == b[..pos] && c[pos..pos + 1 + |bytes|] == [tag] + bytes
  {
  }

  // The payload came first, the header second.
  lemma Assembled(a: seq<byte>, b: seq<byte>, c: seq<byte>, pos: nat, header: seq<byte>, d: seq<byte>)
    requires |a| == |b| == |c| && pos + |header| + |d| <= |a|
    requires b[..pos + |header|] == a[..pos + |header|] && b[pos + |header|..pos + |header| + |d|] == d
    requires c[..pos] == b[..pos] && c[pos..pos + |header|] == header && c[pos + |header|..] == b[pos + |header|..]
    ensures c[..pos + |header| + |d|] == a[..pos] + (header + d)
  {
    var m := pos + |header|;
    assert a[..pos] == a[..m][..pos] == b[..m][..pos] == c[..pos];
    assert c[m..m + |d|] == c[m..][..|d|] == b[m..][..|d|] == b[m..m + |d|];
    assert c[..m + |d|] == c[..pos] + c[pos..m] + c[m..m + |d|];
  }
}
