// The decoder as a cursor over the buffer: each read advances past exactly the bytes
// the specification consumes, and stops with an error instead of leaving the buffer.
module MsgPackReader {
  import opened Utf8
  import opened MsgPack
  import Floats

  const SHORT_STRING_MAX: nat := 16

  class Reader {
    const buf: seq<byte>
    var pos: nat

    ghost predicate Valid()
      reads this
    {
      pos <= |buf|
    }

    // What is still to be read.
    ghost function Rest(): seq<byte>
      reads this
      requires Valid()
    {
      buf[pos..]
    }

    constructor (buf: seq<byte>)
      ensures Valid() && Rest() == buf && this.buf == buf
    {
      this.buf := buf;
      pos := 0;
    }

    // u8, u16, u32 and u64.
    method ReadU(k: nat) returns (r: Result<nat>)
      requires Valid()
      modifies this
      ensures Valid() && r == U(old(Rest()), k)
      ensures r.Ok? ==> pos == old(pos) + r.used
    {
      if pos + k > |buf| {
        return Fail(EndOfInput);
      }
      assert buf[pos..][..k] == buf[pos..pos + k];
      r := Ok(FromBE(buf[pos..pos + k]), k);
      pos := pos + k;
    }

    // i8, i16, i32 and i64.
    method ReadS(k: nat) returns (r: Result<int>)
      requires Valid()
      modifies this
      ensures Valid() && r == S(old(Rest()), k)
      ensures r.Ok? ==> pos == old(pos) + r.used
    {
      if pos + k > |buf| {
        return Fail(EndOfInput);
      }
      assert buf[pos..][..k] == buf[pos..pos + k];
      r := Ok(FromSigned(buf[pos..pos + k]), k);
      pos := pos + k;
    }

    // bytes, f32 and f64.
    method ReadBytes(n: nat) returns (r: Result<seq<byte>>)
      requires Valid()
      modifies this
      ensures Valid() && r == Bytes(old(Rest()), n)
      ensures r.Ok? ==> pos == old(pos) + r.used
    {
      if pos + n > |buf| {
        return Fail(EndOfInput);
      }
      assert buf[pos..][..n] == buf[pos..pos + n];
      r := Ok(buf[pos..pos + n], n);
      pos := pos + n;
    }

    // A string of `n` bytes. Short pure-ASCII strings are built byte by byte, which is
    // what the decoder would have returned.
    method ReadStr(n: nat) returns (r: Result<string>)
      requires Valid()
      modifies this
      ensures Valid()
      ensures r == (match Bytes(old(Rest()), n) case Fail(e) => Fail(e) case Ok(b, used) => Ok(Decode(b), used))
      ensures r.Ok? ==> pos == old(pos) + r.used
    {
      if pos + n > |buf| {
        return Fail(EndOfInput);
      }
      var start := pos;
      pos := pos + n;
      var bytes := buf[start..start + n];
      assert buf[start..][..n] == bytes;
      if n <= SHORT_STRING_MAX {
        var i := 0;
        while i < n && bytes[i] < 0x80
          invariant 0 <= i <= n
          invariant forall j :: 0 <= j < i ==> bytes[j] < 0x80
        {
          i := i + 1;
        }
        if i == n {
          var out := "";
          for j := 0 to n
            invariant |out| == j && forall m :: 0 <= m < j ==> out[m] == bytes[m] as char
          {
            out := out + [bytes[j] as char];
          }
          AsciiDecode(bytes);
          assert out == Decode(bytes);
          return Ok(out, n);
        }
      }
      r := Ok(Decode(bytes), n);
    }

    // A count of `k` bytes, then that many raw bytes.
    method ReadCounted(k: nat) returns (r: Result<seq<byte>>)
      requires Valid()
      modifies this
      ensures Valid() && r == Counted(old(Rest()), k)
      ensures r.Ok? ==> pos == old(pos) + r.used
    {
      hide FromBE, U;
      ghost var rest := Rest();
      var n := ReadU(k);
      match n
      case Fail(e) => r := Fail(e);
      case Ok(count, _) =>
        assert rest[k..] == Rest();
        var data := ReadBytes(count);
        r := Shift(data, k);
    }

    method ReadCountedStr(k: nat) returns (r: Result<Value>)
      requires Valid()
      modifies this
      ensures Valid() && r == Wrap(Counted(old(Rest()), k), x => Str(Decode(x)))
      ensures r.Ok? ==> pos == old(pos) + r.used
    {
      hide FromBE, U, Decode;
      ghost var rest := Rest();
      var n := ReadU(k);
      match n
      case Fail(e) => r := Fail(e);
      case Ok(count, _) =>
        assert rest[k..] == Rest();
        var s := ReadStr(count);
        r := match s case Fail(e) => Fail(e) case Ok(x, used) => Ok(Str(x), used + k);
    }

    method ReadExt(n: nat) returns (r: Result<Value>)
      requires Valid()
      modifies this
      ensures Valid() && r == ExtBody(old(Rest()), n)
      ensures r.Ok? ==> pos == old(pos) + r.used
    {
      hide FromSigned, S;
      ghost var rest := Rest();
      var tag := ReadS(1);
      match tag
      case Fail(e) => r := Fail(e);
      case Ok(t, _) =>
        assert rest[1..] == Rest();
        var data := ReadBytes(n);
        r := match data case Fail(e) => Fail(e) case Ok(d, used) => Ok(Ext(t, d), used + 1);
    }

    method ReadExtCounted(k: nat) returns (r: Result<Value>)
      requires Valid()
      modifies this
      ensures Valid() && r == ExtCounted(old(Rest()), k)
      ensures r.Ok? ==> pos == old(pos) + r.used
    {
      hide FromBE, U, ExtBody;
      ghost var rest := Rest();
      var n := ReadU(k);
      match n
      case Fail(e) => r := Fail(e);
      case Ok(count, _) =>
        assert rest[k..] == Rest();
        var body := ReadExt(count);
        r := Shift(body, k);
    }

    method ReadFloat(k: nat) returns (r: Result<Value>)
      requires Valid() && (k == 4 || k == 8)
      modifies this
      ensures Valid() && r == F(old(Rest()), k)
      ensures r.Ok? ==> pos == old(pos) + r.used
    {
      hide U, Number, Pow256;
      Widths();
      var bits := ReadU(k);
      match bits
      case Fail(e) => r := Fail(e);
      case Ok(x, _) => r := Ok(Number(if k == 4 then Floats.Widen(x) else x), k);
    }

    method ReadScalar(tag: byte) returns (r: Result<Value>)
      requires Valid()
      modifies this
      ensures Valid() && r == DecScalar(tag, old(Rest()))
      ensures r.Ok? ==> pos == old(pos) + r.used
    {
      hide U, S, F, Bytes, Counted, ExtBody, ExtCounted, NumberOrString;
      if tag == 0xC0 {
        r := Ok(Null, 0);
      } else if tag == 0xC2 {
        r := Ok(Bool(false), 0);
      } else if tag == 0xC3 {
        r := Ok(Bool(true), 0);
      } else if 0xC4 <= tag <= 0xC6 {
        var b := ReadCounted(if tag == 0xC4 then 1 else if tag == 0xC5 then 2 else 4);
        r := Wrap(b, x => Bin(x));
      } else if 0xC7 <= tag <= 0xC9 {
        r := ReadExtCounted(if tag == 0xC7 then 1 else if tag == 0xC8 then 2 else 4);
      } else if tag == 0xCA {
        r := ReadFloat(4);
      } else if tag == 0xCB {
        r := ReadFloat(8);
      } else if 0xCC <= tag <= 0xCF {
        var n := ReadU(if tag == 0xCC then 1 else if tag == 0xCD then 2 else if tag == 0xCE then 4 else 8);
        r := Wrap(n, if tag == 0xCF then x => NumberOrString(x) else x => Int(x));
      } else if 0xD0 <= tag <= 0xD3 {
        var n := ReadS(if tag == 0xD0 then 1 else if tag == 0xD1 then 2 else if tag == 0xD2 then 4 else 8);
        r := Wrap(n, if tag == 0xD3 then x => NumberOrString(x) else x => Int(x));
      } else if 0xD4 <= tag <= 0xD8 {
        r := ReadExt(if tag == 0xD4 then 1 else if tag == 0xD5 then 2 else if tag == 0xD6 then 4
                     else if tag == 0xD7 then 8 else 16);
      } else {
        r := Fail(UnknownTag(tag));
      }
    }

    // Decode one value: the specification's answer, and the cursor past what it used.
    method DecodeValue() returns (r: Result<Value>)
      requires Valid()
      modifies this
      decreases |buf| - pos, 0
      ensures Valid() && r == Dec(old(Rest()))
      ensures r.Ok? ==> pos == old(pos) + r.used
    {
      hide DecScalar, DecItems, DecEntries, Bytes, Counted, Decode, DecArr, DecMap;
      if pos == |buf| {
        return Fail(EndOfInput);
      }
      ghost var b := Rest();
      var tag := buf[pos];
      pos := pos + 1;
      assert b[0] == tag && b[1..] == Rest();
      if tag <= 0x7F {
        r := Ok(Int(tag), 1);
      } else if tag <= 0x8F {
        var es := DecodeMap(tag % 16);
        r := Wrap(Shift(es, 1), x => Obj(x));
      } else if tag <= 0x9F {
        var vs := DecodeArray(tag % 16);
        r := Wrap(Shift(vs, 1), x => Arr(x));
      } else if tag <= 0xBF {
        var s := ReadStr(tag % 32);
        r := match s case Fail(e) => Fail(e) case Ok(x, used) => Ok(Str(x), used + 1);
      } else if tag >= 0xE0 {
        r := Ok(Int(tag as int - 0x100), 1);
      } else if tag <= 0xD8 {
        var v := ReadScalar(tag);
        r := Shift(v, 1);
      } else if tag <= 0xDB {
        var v := ReadCountedStr(if tag == 0xD9 then 1 else if tag == 0xDA then 2 else 4);
        r := Shift(v, 1);
      } else if tag <= 0xDD {
        var v := DecodeCountedArray(if tag == 0xDC then 2 else 4);
        r := Shift(v, 1);
      } else {
        var v := DecodeCountedMap(if tag == 0xDE then 2 else 4);
        r := Shift(v, 1);
      }
    }

    method DecodeCountedArray(k: nat) returns (r: Result<Value>)
      requires Valid()
      modifies this
      decreases |buf| - pos, 2
      ensures Valid() && r == DecArr(old(Rest()), k)
      ensures r.Ok? ==> pos == old(pos) + r.used
    {
      hide U, DecItems;
      ghost var rest := Rest();
      var n := ReadU(k);
      match n
      case Fail(e) => r := Fail(e);
      case Ok(count, _) =>
        assert rest[k..] == Rest();
        var vs := DecodeArray(count);
        r := Wrap(Shift(vs, k), x => Arr(x));
    }

    method DecodeCountedMap(k: nat) returns (r: Result<Value>)
      requires Valid()
      modifies this
      decreases |buf| - pos, 2
      ensures Valid() && r == DecMap(old(Rest()), k)
      ensures r.Ok? ==> pos == old(pos) + r.used
    {
      hide U, DecEntries;
      ghost var rest := Rest();
      var n := ReadU(k);
      match n
      case Fail(e) => r := Fail(e);
      case Ok(count, _) =>
        assert rest[k..] == Rest();
        var es := DecodeMap(count);
        r := Wrap(Shift(es, k), x => Obj(x));
    }

    method DecodeArray(n: nat) returns (r: Result<seq<Value>>)
      requires Valid()
      modifies this
      decreases |buf| - pos, 1
      ensures Valid() && r == DecItems(old(Rest()), n)
      ensures r.Ok? ==> pos == old(pos) + r.used
    {
      hide Dec, DecItems;
      ghost var b := Rest();
      ItemsBase(b, n);
      var out: seq<Value>, start := [], pos;
      for i := 0 to n
        invariant Valid() && old(pos) <= pos && |out| == i
        invariant DecItems(b, n) == Prepend(out, pos - old(pos), DecItems(Rest(), n - i))
      {
        ghost var c, p := Rest(), pos;
        ItemsUnfold(c, n - i);
        var v := DecodeValue();
        match v
        case Fail(e) => return Fail(e);
        case Ok(x, used) =>
          assert c[used..] == Rest();
          PrependTwice(out, x, p - old(pos), used, DecItems(Rest(), n - i - 1));
          out := out + [x];
      }
      ItemsBase(Rest(), 0);
      assert out + [] == out;
      r := Ok(out, pos - start);
    }

    method DecodeMap(n: nat) returns (r: Result<seq<(Value, Value)>>)
      requires Valid()
      modifies this
      decreases |buf| - pos, 1
      ensures Valid() && r == DecEntries(old(Rest()), n, [])
      ensures r.Ok? ==> pos == old(pos) + r.used
    {
      hide Dec, Upsert, DecEntries;
      ghost var b := Rest();
      EntriesBase(b, n, []);
      var out: seq<(Value, Value)>, start := [], pos;
      for i := 0 to n
        invariant Valid() && old(pos) <= pos
        invariant DecEntries(b, n, []) == Shift(DecEntries(Rest(), n - i, out), pos - old(pos))
      {
        ghost var c, p := Rest(), pos;
        EntriesUnfold(c, n - i, out);
        var key := DecodeValue();
        match key
        case Fail(e) => return Fail(e);
        case Ok(k, used) =>
          assert c[used..] == Rest();
          var value := DecodeValue();
          match value
          case Fail(e) => return Fail(e);
          case Ok(v, used') =>
            assert c[used + used'..] == Rest();
            out := Upsert(out, k, v);
            ShiftTwice(DecEntries(Rest(), n - i - 1, out), used + used', p - old(pos));
      }
      EntriesBase(Rest(), 0, out);
      r := Ok(out, pos - start);
    }
  }

  // `decode`: one value from the front of the buffer.
  method DecodeBytes(buf: seq<byte>) returns (r: Result<Value>)
    ensures r == Dec(buf)
  {
    var reader := new Reader(buf);
    r := reader.DecodeValue();
  }

  function Prepend(out: seq<Value>, k: nat, r: Result<seq<Value>>): Result<seq<Value>> {
    match r case Fail(e) => Fail(e) case Ok(vs, used) => Ok(out + vs, used + k)
  }

  lemma ItemsUnfold(b: seq<byte>, n: nat)
    requires n > 0
    ensures Dec(b).Fail? ==> DecItems(b, n) == Fail(Dec(b).error)
    ensures Dec(b).Ok? ==> DecItems(b, n) == Prepend([Dec(b).value], Dec(b).used, DecItems(b[Dec(b).used..], n - 1))
  {
  }

  lemma ItemsBase(b: seq<byte>, n: nat)
    ensures DecItems(b, 0) == Ok([], 0) && Prepend([], 0, DecItems(b, n)) == DecItems(b, n)
  {
    var r := DecItems(b, n);
    assert r.Ok? ==> [] + r.value == r.value;
  }

  lemma PrependTwice(out: seq<Value>, x: Value, k: nat, used: nat, r: Result<seq<Value>>)
    ensures Prepend(out, k, Prepend([x], used, r)) == Prepend(out + [x], k + used, r)
  {
    if r.Ok? {
      assert out + ([x] + r.value) == out + [x] + r.value;
    }
  }

  lemma EntriesBase(b: seq<byte>, n: nat, acc: seq<(Value, Value)>)
    ensures DecEntries(b, 0, acc) == Ok(acc, 0) && Shift(DecEntries(b, n, acc), 0) == DecEntries(b, n, acc)
  {
  }

  lemma ShiftTwice<T>(r: Result<T>, i: nat, j: nat)
    ensures Shift(Shift(r, i), j) == Shift(r, i + j)
  {
  }

  lemma EntriesUnfold(b: seq<byte>, n: nat, acc: seq<(Value, Value)>)
    requires n > 0
    ensures Dec(b).Fail? ==> DecEntries(b, n, acc) == Fail(Dec(b).error)
    ensures Dec(b).Ok? ==>
      var c := Dec(b[Dec(b).used..]);
      DecEntries(b, n, acc) ==
        if c.Fail? then Fail(c.error)
        else Shift(DecEntries(b[Dec(b).used + c.used..], n - 1, Upsert(acc, Dec(b).value, c.value)),
                   Dec(b).used + c.used)
  {
  }
}
