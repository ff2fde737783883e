/**
 The reader and the writer over chains of buffers: both work as on one flat byte string, whatever the buffers' sizes.
 */
module AmfChain {
  import opened Bytes
  import opened Wrappers
  import opened AmfFormat

  class Reader {
    const bufs: seq<seq<byte>>
    var link: nat
    var offset: nat

    constructor (bufs: seq<seq<byte>>)
      ensures this.bufs == bufs && Valid() && Rest() == Flatten(bufs)
    {
      this.bufs, link, offset := bufs, 0, 0;
      new;
      RestFrom(bufs, 0);
    }

    ghost predicate Valid()
      reads this
    {
      link <= |bufs| && (link < |bufs| ==> offset <= |bufs[link]|)
    }

    /** What is still to be read. */
    function Rest(): seq<byte>
      requires Valid()
      reads this
    {
      From(bufs, link, offset)
    }

    /** The next `n` bytes, or nothing at all: then the position is as before. */
    method Get(n: nat) returns (ok: bool, s: seq<byte>)
      requires Valid()
      modifies this
      ensures Valid() && (ok <==> n <= |old(Rest())|)
      ensures if ok then s == old(Rest())[..n] && Rest() == old(Rest())[n..]
              else link == old(link) && offset == old(offset)
    {
      hide From;
      FromEnd(bufs);
      if n == 0 {
        return true, [];
      }
      s := [];
      var l: nat, o: nat, left: nat := link, offset, n;
      while l < |bufs|
        invariant l <= |bufs| && (l < |bufs| ==> o <= |bufs[l]|)
        invariant link == old(link) && offset == old(offset)
        invariant left > 0 && |s| + left == n && s + From(bufs, l, o) == old(Rest())
        decreases |bufs| - l
      {
        if |bufs[l]| >= o + left {
          GetHere(bufs, l, o, left, s);
          s := s + bufs[l][o..o + left];
          offset := o + left;
          link := l;
          return true, s;
        }
        NextBuf(bufs, l, o);
        s := s + bufs[l][o..];
        left := left - (|bufs[l]| - o);
        l, o := l + 1, 0;
      }
      return false, s;
    }

    // ----- reading -----

    /** One element, as from the flat string. */
    method ReadOne(e: Option<Elt>) returns (r: Got)
      requires Valid()
      modifies this
      ensures Valid() && r == ReadElt(old(Rest()), e) && (r.Got? ==> Rest() == r.rest)
      decreases |Rest()|, 3
    {
      hide ReadValue;
      if e.Some? && e.value.typeless {
        if e.value.optional || e.value.context {
          return Failed;
        }
        r := ReadTyped(e.value.code, e.value.data);
        return;
      }
      var ok, type8 := Get(1);
      if !ok {
        if e.None? {
          return Crashed;
        }
        if e.value.optional {
          return Got(e.value.data, Rest(), true);
        }
        return Failed;
      }
      var code := type8[0] as nat;
      var fits := e.Some? && Compatible(e.value.code % 0x100, code);
      if e.Some? && e.value.context {
        var here := Rest();
        r := ReadTyped(code, Null);
        if r.Got? {
          r := r.(data := if fits && !e.value.data.Null? then At(here) else e.value.data);
        }
      } else {
        r := ReadTyped(code, if fits then e.value.data else Null);
        if r.Got? && e.Some? && !fits {
          r := r.(data := e.value.data);
        }
      }
    }

    /** A value of a known type, as from the flat string. */
    method ReadTyped(code: nat, d: Data) returns (r: Got)
      requires Valid()
      modifies this
      ensures Valid() && r == ReadValue(old(Rest()), code, d) && (r.Got? ==> Rest() == r.rest)
      decreases |Rest()|, 2
    {
      hide ReadFields, ReadItems, ReadVariant, Put, PutString, Reversed, Be16, Be32;
      if code == NUMBER {
        r := ReadBytes(8, true, d);
      } else if code == BOOLEAN || code == INT8 {
        r := ReadBytes(1, false, d);
      } else if code == STRING {
        r := ReadString(d);
      } else if code == NULL || code == ARRAY_NULL {
        r := Got(d, Rest(), false);
      } else if code == MIXED_ARRAY {
        var ok, _ := Get(4);
        if !ok {
          return Failed;
        }
        var e := ReadObject(FieldsOf(d));
        r := GotFields(e, d);
      } else if code == OBJECT {
        var e := ReadObject(FieldsOf(d));
        r := GotFields(e, d);
      } else if code == ARRAY {
        var e := ReadArray(FieldsOf(d));
        r := GotFields(e, d);
      } else if code == VARIANT {
        var e := ReadAny(FieldsOf(d));
        r := GotFields(e, d);
      } else if code == INT16 {
        r := ReadBytes(2, true, d);
      } else if code == INT32 {
        r := ReadBytes(4, true, d);
      } else if code == END {
        r := Got(d, Rest(), true);
      } else {
        r := Failed;
      }
    }

    /** A value of fixed size, most significant byte first. */
    method ReadBytes(n: nat, reversed: bool, d: Data) returns (r: Got)
      requires Valid()
      modifies this
      ensures Valid() && (r.Got? ==> Rest() == r.rest)
      ensures r == if |old(Rest())| < n then Failed
                   else Got(Put(d, if reversed then Reversed(old(Rest())[..n]) else old(Rest())[..n]),
                            old(Rest())[n..], false)
    {
      var ok, s := Get(n);
      if !ok {
        return Failed;
      }
      return Got(Put(d, if reversed then Reversed(s) else s), Rest(), false);
    }

    /** A string goes to its cell with a zero, and is cut if the cell is too small. */
    method ReadString(d: Data) returns (r: Got)
      requires Valid()
      modifies this
      ensures Valid() && r == ReadValue(old(Rest()), STRING, d) && (r.Got? ==> Rest() == r.rest)
    {
      hide ReadFields, ReadItems, ReadVariant, Be16, Reader.Rest;
      ghost var s := Rest();
      var ok, head := Get(2);
      if !ok {
        return Failed;
      }
      var len: nat := Be16(head, 0);
      LengthHere(s);
      TextHere(s, len, if d.Cell? && d.bytes != [] then |d.bytes| - 1 else 0);
      var text: seq<byte>;
      if !d.Cell? || d.bytes == [] {
        ok, text := Get(len);
        return if ok then Got(d, Rest(), false) else Failed;
      }
      if |d.bytes| <= len {
        ok, text := Get(|d.bytes| - 1);
        if !ok {
          return Failed;
        }
        var more;
        ok, more := Get(len - |d.bytes| + 1);
        if !ok {
          return Failed;
        }
        return Got(Cell(text + [0]), Rest(), false);
      }
      ok, text := Get(len);
      if !ok {
        return Failed;
      }
      return Got(Put(d, text + [0]), Rest(), false);
    }

    /** The fields of an object, or of a mixed array. */
    method ReadObject(elts: seq<Elt>) returns (r: GotElts)
      requires Valid()
      modifies this
      ensures Valid() && r == ReadFields(old(Rest()), elts) && (r.GotElts? ==> Rest() == r.rest)
      decreases |Rest()|, 1
    {
      hide ReadElt, Be16, IndexOf, Selected, Stored, SameName;
      var now, maxLen := elts, MaxName(elts);
      while true
        invariant Valid() && |Rest()| <= |old(Rest())| && |now| == |elts|
        invariant forall i :: 0 <= i < |now| ==> |now[i].name| <= maxLen
        invariant ReadFields(old(Rest()), elts) == ReadFields(Rest(), now)
        decreases |Rest()|
      {
        ghost var s := Rest();
        var ok, head := Get(2);
        if !ok {
          return GotElts(now, Rest());
        }
        var len: nat := Be16(head, 0);
        LengthHere(s);
        LastField(s, now);
        if len == 0 {
          var type8;
          ok, type8 := Get(1);
          return if !ok || type8[0] as nat != END then NoElts else GotElts(now, Rest());
        }
        var n;
        ok, n := ReadKey(now, maxLen, len);
        if !ok {
          return NoElts;
        }
        var value := ReadOne(Selected(now, n));
        OneField(s, now, len, n);
        if !value.Got? {
          return Broken(value);
        }
        StoredKeeps(now, n, value.data);
        now := Stored(now, n, value.data);
      }
    }

    /** A key, of which no more is kept than the longest name has, and the element of that name. */
    method ReadKey(elts: seq<Elt>, maxLen: nat, len: nat) returns (ok: bool, n: nat)
      requires Valid() && forall i :: 0 <= i < |elts| ==> |elts[i].name| <= maxLen
      modifies this
      ensures Valid() && (ok <==> len <= |old(Rest())|)
      ensures ok ==> n == IndexOf(elts, old(Rest())[..len]) && Rest() == old(Rest())[len..]
    {
      hide SameUpToZero;
      var name: seq<byte>;
      ghost var s := Rest();
      n := 0;
      if len <= maxLen {
        ok, name := Get(len);
      } else {
        ok, name := Get(maxLen);
        if !ok {
          return false, 0;
        }
        var more;
        ok, more := Get(len - maxLen);
      }
      if !ok {
        return false, 0;
      }
      assert len <= maxLen ==> name[..len] == s[..len];
      while n < |elts| && !(len == |elts[n].name| && SameUpToZero(elts[n].name, name[..len]))
        modifies {}
        invariant n <= |elts| && forall i :: 0 <= i < n ==> !SameName(elts[i].name, s[..len])
      {
        n := n + 1;
      }
      IndexIs(elts, s[..len], n);
    }

    method ReadArray(elts: seq<Elt>) returns (r: GotElts)
      requires Valid()
      modifies this
      ensures Valid() && (r.GotElts? ==> Rest() == r.rest)
      ensures r == if |old(Rest())| < 4 then NoElts else ReadItems(old(Rest())[4..], elts, 0, Be32(old(Rest()), 0))
      decreases |Rest()|, 1
    {
      hide ReadElt, Be32, Selected, Stored;
      ghost var s := Rest();
      var ok, head := Get(4);
      if !ok {
        return NoElts;
      }
      var len: nat := Be32(head, 0);
      CountHere(s);
      var now, n: nat := elts, 0;
      while n < len
        invariant Valid() && n <= len && |Rest()| <= |s| - 4
        invariant ReadItems(s[4..], elts, 0, len) == ReadItems(Rest(), now, n, len)
      {
        var value := ReadOne(Selected(now, n));
        if !value.Got? {
          return Broken(value);
        }
        now := Stored(now, n, value.data);
        n := n + 1;
      }
      return GotElts(now, Rest());
    }

    /** A value of whatever type it says. */
    method ReadAny(elts: seq<Elt>) returns (r: GotElts)
      requires Valid()
      modifies this
      ensures Valid() && r == ReadVariant(old(Rest()), elts) && (r.GotElts? ==> Rest() == r.rest)
      decreases |Rest()|, 1
    {
      hide ReadValue, Stored;
      var ok, type8 := Get(1);
      if !ok {
        return NoElts;
      }
      var n := VariantOf(elts, type8[0]);
      var value := ReadTyped(type8[0], if n < |elts| then elts[n].data else Null);
      return if !value.Got? then Broken(value) else GotElts(Stored(elts, n, value.data), Rest());
    }

    /** ngx_rtmp_amf_read. */
    method Read(elts: seq<Elt>) returns (r: GotElts)
      requires Valid()
      modifies this
      ensures Valid() && r == ReadElts(old(Rest()), elts, 0) && (r.GotElts? ==> Rest() == r.rest)
    {
      hide ReadElt, Stored;
      var now, n: nat := elts, 0;
      while n < |now|
        invariant Valid() && n <= |now|
        invariant ReadElts(old(Rest()), elts, 0) == ReadElts(Rest(), now, n)
      {
        var value := ReadOne(Some(now[n]));
        if !value.Got? {
          return Broken(value);
        }
        KeepsCount(now, n, value.data);
        now := Stored(now, n, value.data);
        if value.stop {
          return GotElts(now, Rest());
        }
        n := n + 1;
      }
      return GotElts(now, Rest());
    }
  }

  /** The writer fills the last buffer of its chain and then takes the next one that the allocator gives. */
  class Writer {
    var bufs: seq<seq<byte>>
    /** The sizes of the buffers of the chain. */
    var sizes: seq<nat>
    /** The sizes of the buffers that the allocator has left. */
    var spare: seq<nat>

    constructor (spare: seq<nat>)
      requires forall i :: 0 <= i < |spare| ==> spare[i] > 0
      ensures Valid() && bufs == [] && this.spare == spare
    {
      bufs, sizes, this.spare := [], [], spare;
    }

    /** No buffer is overfull, and all but the last are full. */
    ghost predicate Valid()
      reads this
    {
      && |bufs| == |sizes|
      && (forall i :: 0 <= i < |bufs| ==> if i + 1 < |bufs| then |bufs[i]| == sizes[i] else |bufs[i]| <= sizes[i])
      && (forall i :: 0 <= i < |spare| ==> spare[i] > 0)
    }

    ghost function Written(): seq<byte>
      reads this
    {
      Flatten(bufs)
    }

    /** It fails only when the allocator has nothing left. */
    method Put(s: seq<byte>) returns (ok: bool)
      requires Valid()
      modifies this
      ensures Valid() && (ok ==> Written() == old(Written()) + s) && (!ok ==> spare == [])
    {
      hide Flatten;
      var left := s;
      while |left| > 0
        invariant Valid() && Written() + left == old(Written()) + s
        decreases |left|, |spare|
      {
        if |bufs| == 0 || |bufs[|bufs| - 1]| == sizes[|sizes| - 1] {
          if |spare| == 0 {
            return false;
          }
          FlattenAppend(bufs, [[]]);
          FlattenOne<byte>([]);
          bufs, sizes, spare := bufs + [[]], sizes + [spare[0]], spare[1..];
        }
        var l := |bufs| - 1;
        var room := sizes[l] - |bufs[l]|;
        var n := if room >= |left| then |left| else room;
        Filled(bufs, left[..n]);
        bufs := bufs[l := bufs[l] + left[..n]];
        left := left[n..];
      }
      return true;
    }

    // ----- writing -----

    /** One element: its type, unless the reader knows it, and its value. */
    method WriteOne(e: Elt) returns (ok: bool)
      requires Valid()
      modifies this
      ensures Valid() && Appends(old(Written()), Written(), EncodeElt(e), ok, spare)
      decreases e, 2
    {
      hide EncodeValue;
      if !e.typeless {
        ok := Put([(e.code % 0x100) as byte]);
        if !ok {
          return;
        }
      }
      if e.optional || e.context {
        return false;
      }
      ok := WriteValue(e);
    }

    method WriteValue(e: Elt) returns (ok: bool)
      requires Valid()
      modifies this
      ensures Valid() && Appends(old(Written()), Written(), EncodeValue(e), ok, spare)
      decreases e, 1
    {
      hide EncodeFields, EncodeElts, Reversed, Text, PutBe16, PutBe32;
      if e.code == NUMBER {
        ok := WriteBytes(e.data, 8, true);
      } else if e.code == BOOLEAN || e.code == INT8 {
        ok := WriteBytes(e.data, 1, false);
      } else if e.code == STRING {
        var text := Text(e);
        ok := Put(PutBe16(|text|));
        if ok {
          ok := Put(text);
        }
      } else if e.code == NULL || e.code == ARRAY_NULL {
        ok := true;
      } else if e.code == OBJECT || e.code == MIXED_ARRAY {
        ok := WriteObject(e);
      } else if e.code == ARRAY {
        ok := WriteArray(e);
      } else if e.code == INT16 {
        ok := WriteBytes(e.data, 2, true);
      } else if e.code == INT32 {
        ok := WriteBytes(e.data, 4, true);
      } else {
        ok := false;
      }
    }

    method WriteBytes(d: Data, n: nat, reversed: bool) returns (ok: bool)
      requires Valid()
      modifies this
      ensures Valid()
      ensures Appends(old(Written()), Written(),
                      if Holds(d, n) then Some(if reversed then Reversed(d.bytes[..n]) else d.bytes[..n]) else None,
                      ok, spare)
    {
      if !Holds(d, n) {
        return false;
      }
      ok := Put(if reversed then Reversed(d.bytes[..n]) else d.bytes[..n]);
    }

    /** The fields, an empty name and the end mark. */
    method WriteObject(e: Elt) returns (ok: bool)
      requires Valid() && (e.code == OBJECT || e.code == MIXED_ARRAY)
      modifies this
      ensures Valid() && Appends(old(Written()), Written(), EncodeValue(e), ok, spare)
      decreases e, 0
    {
      hide EncodeFields, EncodeElts;
      ghost var before := Written();
      if e.code == MIXED_ARRAY {
        ok := Put([0, 0, 0, 0]);
        if !ok {
          return;
        }
      }
      ghost var mid := Written();
      if e.data.Elts? {
        ok := WriteFields(e.data.elts);
        if !ok {
          return;
        }
      }
      ghost var body := Written();
      ok := Put([0, 0]);
      if ok {
        ok := Put([END as byte]);
      }
      ObjectWritten(e, before, mid, body, Written(), ok);
    }

    method WriteFields(elts: seq<Elt>) returns (ok: bool)
      requires Valid()
      modifies this
      ensures Valid() && Appends(old(Written()), Written(), EncodeFields(elts), ok, spare)
      decreases elts
    {
      hide EncodeElt, PutBe16;
      var n := 0;
      ok := true;
      ghost var done: seq<byte> := [];
      ThenNothing();
      assert elts[0..] == elts;
      while n < |elts|
        invariant Valid() && 0 <= n <= |elts| && Written() == old(Written()) + done
        invariant EncodeFields(elts) == Then(done, EncodeFields(elts[n..]))
      {
        var len := |elts[n].name| % 0x1_0000;
        ghost var head := PutBe16(len) + elts[n].name[..len];
        assert elts[n..][0] == elts[n] && elts[n..][1..] == elts[n + 1..];
        ok := Put(PutBe16(len));
        if !ok {
          return;
        }
        ok := Put(elts[n].name[..len]);
        if !ok {
          return;
        }
        ok := WriteOne(elts[n]);
        FieldEncoded(done, elts[n..], head);
        if !ok {
          return;
        }
        done := done + (head + EncodeElt(elts[n]).value);
        n := n + 1;
      }
      assert elts[n..] == [];
    }

    method WriteArray(e: Elt) returns (ok: bool)
      requires Valid() && e.code == ARRAY
      modifies this
      ensures Valid() && Appends(old(Written()), Written(), EncodeValue(e), ok, spare)
      decreases e, 0
    {
      hide EncodeElts, PutBe32;
      var count := if e.data.Elts? then |e.data.elts| else 0;
      ghost var head := PutBe32(Wrap(count));
      ok := Put(PutBe32(Wrap(count)));
      if ok && e.data.Elts? {
        ok := Write(e.data.elts);
        assert ok ==> Written() == old(Written()) + (head + EncodeElts(e.data.elts).value);
      }
    }

    /** ngx_rtmp_amf_write. */
    method Write(elts: seq<Elt>) returns (ok: bool)
      requires Valid()
      modifies this
      ensures Valid() && Appends(old(Written()), Written(), EncodeElts(elts), ok, spare)
      decreases elts
    {
      hide EncodeElt;
      var n := 0;
      ok := true;
      ghost var done: seq<byte> := [];
      ThenNothing();
      assert elts[0..] == elts;
      while n < |elts|
        invariant Valid() && 0 <= n <= |elts| && Written() == old(Written()) + done
        invariant EncodeElts(elts) == Then(done, EncodeElts(elts[n..]))
      {
        assert elts[n..][0] == elts[n] && elts[n..][1..] == elts[n + 1..];
        ok := WriteOne(elts[n]);
        EltEncoded(done, elts[n..]);
        if !ok {
          return;
        }
        done := done + EncodeElt(elts[n]).value;
        n := n + 1;
      }
      assert elts[n..] == [];
    }
  }

  ghost function Then(done: seq<byte>, rest: Option<seq<byte>>): Option<seq<byte>> {
    if rest.None? then None else Some(done + rest.value)
  }

  lemma ThenNothing()
    ensures forall rest :: Then([], rest) == rest
  {
    assert forall s: seq<byte> :: [] + s == s;
  }

  lemma EltEncoded(done: seq<byte>, elts: seq<Elt>)
    requires elts != []
    ensures EncodeElt(elts[0]).None? ==> Then(done, EncodeElts(elts)).None?
    ensures EncodeElt(elts[0]).Some? ==>
      Then(done, EncodeElts(elts)) == Then(done + EncodeElt(elts[0]).value, EncodeElts(elts[1..]))
  {
    hide EncodeElt;
    if EncodeElt(elts[0]).Some? && EncodeElts(elts[1..]).Some? {
      var a, b := EncodeElt(elts[0]).value, EncodeElts(elts[1..]).value;
      assert done + (a + b) == (done + a) + b;
    }
  }

  lemma FieldEncoded(done: seq<byte>, elts: seq<Elt>, head: seq<byte>)
    requires elts != []
    requires var len := |elts[0].name| % 0x1_0000; head == PutBe16(len) + elts[0].name[..len]
    ensures EncodeElt(elts[0]).None? ==> Then(done, EncodeFields(elts)).None?
    ensures EncodeElt(elts[0]).Some? ==>
      Then(done, EncodeFields(elts)) == Then(done + (head + EncodeElt(elts[0]).value), EncodeFields(elts[1..]))
  {
    hide EncodeElt, PutBe16;
    if EncodeElt(elts[0]).Some? && EncodeFields(elts[1..]).Some? {
      var a, b := EncodeElt(elts[0]).value, EncodeFields(elts[1..]).value;
      assert done + (head + a + b) == (done + (head + a)) + b;
    }
  }

  lemma ObjectWritten(e: Elt, before: seq<byte>, mid: seq<byte>, body: seq<byte>, after: seq<byte>, ok: bool)
    requires e.code == OBJECT || e.code == MIXED_ARRAY
    requires mid == before + (if e.code == MIXED_ARRAY then [0, 0, 0, 0] else [])
    requires if e.data.Elts? then EncodeFields(e.data.elts).Some? && body == mid + EncodeFields(e.data.elts).value
             else body == mid
    requires ok ==> after == body + [0, 0] + [END as byte]
    ensures EncodeValue(e).Some? && (ok ==> after == before + EncodeValue(e).value)
  {
    hide EncodeFields;
  }

  /** A write appends the encoding; it fails when there is none or when the buffers have run out. */
  ghost predicate Appends(before: seq<byte>, after: seq<byte>, code: Option<seq<byte>>, ok: bool, spare: seq<nat>) {
    if ok then code.Some? && after == before + code.value else code.None? || spare == []
  }

  /** Bytes go to the end of the last buffer. */
  lemma Filled(bufs: seq<seq<byte>>, s: seq<byte>)
    requires |bufs| > 0
    ensures var l := |bufs| - 1; Flatten(bufs[l := bufs[l] + s]) == Flatten(bufs) + s
  {
    var l := |bufs| - 1;
    assert bufs == bufs[..l] + [bufs[l]] && bufs[l := bufs[l] + s] == bufs[..l] + [bufs[l] + s];
    FlattenAppend(bufs[..l], [bufs[l]]);
    FlattenAppend(bufs[..l], [bufs[l] + s]);
    FlattenOne(bufs[l]);
    FlattenOne(bufs[l] + s);
  }

  lemma KeepsCount(elts: seq<Elt>, n: nat, d: Data)
    ensures |Stored(elts, n, d)| == |elts|
  {
  }

  /** A string of `len` bytes behind its length, read at once or in two goes of which the first takes `m` bytes. */
  lemma TextHere(s: seq<byte>, len: nat, m: nat)
    requires 2 <= |s|
    ensures 2 + len <= |s| ==> s[2..][..len] == s[2..2 + len] && s[2..][len..] == s[2 + len..]
    ensures 2 + len <= |s| && m <= len ==> s[2..][..m] == s[2..2 + len][..m] && s[2..][m..][len - m..] == s[2 + len..]
  {
  }

  lemma LengthHere(s: seq<byte>)
    ensures |s| >= 2 ==> Be16(s[..2], 0) == Be16(s, 0)
  {
  }

  lemma CountHere(s: seq<byte>)
    ensures |s| >= 4 ==> Be32(s[..4], 0) == Be32(s, 0)
  {
  }

  function MaxName(elts: seq<Elt>): (m: nat)
    ensures forall i :: 0 <= i < |elts| ==> |elts[i].name| <= m
  {
    if elts == [] then 0
    else
      var m := MaxName(elts[1..]);
      if |elts[0].name| > m then |elts[0].name| else m
  }

  lemma StoredKeeps(elts: seq<Elt>, n: nat, d: Data)
    ensures |Stored(elts, n, d)| == |elts|
    ensures forall i :: 0 <= i < |elts| ==> Stored(elts, n, d)[i].name == elts[i].name
  {
  }

  lemma IndexIs(elts: seq<Elt>, key: seq<byte>, n: nat)
    requires n <= |elts| && forall i :: 0 <= i < n ==> !SameName(elts[i].name, key)
    requires n < |elts| ==> SameName(elts[n].name, key)
    ensures IndexOf(elts, key) == n
  {
  }

  lemma LastField(s: seq<byte>, elts: seq<Elt>)
    requires |s| >= 2
    ensures Be16(s, 0) == 0 ==>
      ReadFields(s, elts) == if |s| < 3 || s[2] as nat != END then NoElts else GotElts(elts, s[3..])
    ensures Be16(s, 0) > 0 && |s| < 2 + Be16(s, 0) ==> ReadFields(s, elts) == NoElts
  {
  }

  lemma OneField(s: seq<byte>, elts: seq<Elt>, len: nat, n: nat)
    requires |s| >= 2 + len && len == Be16(s, 0) > 0 && n == IndexOf(elts, s[2..][..len])
    ensures var r := ReadElt(s[2..][len..], Selected(elts, n));
            ReadFields(s, elts) == if !r.Got? then Broken(r) else ReadFields(r.rest, Stored(elts, n, r.data))
  {
    hide ReadElt, IndexOf, Be16;
    assert s[2..][..len] == s[2..2 + len] && s[2..][len..] == s[2 + len..];
  }

  /** The bytes from offset `o` of buffer `l` on. */
  function From(bufs: seq<seq<byte>>, l: nat, o: nat): seq<byte>
    requires l <= |bufs| && (l < |bufs| ==> o <= |bufs[l]|)
  {
    if l == |bufs| then [] else bufs[l][o..] + Flatten(bufs[l + 1..])
  }

  lemma RestFrom(bufs: seq<seq<byte>>, l: nat)
    requires l <= |bufs|
    ensures From(bufs, l, 0) == Flatten(bufs[l..])
  {
    if l < |bufs| {
      assert bufs[l..][1..] == bufs[l + 1..];
    }
  }

  lemma FromEnd(bufs: seq<seq<byte>>)
    ensures From(bufs, |bufs|, 0) == []
    ensures forall o: nat :: From(bufs, |bufs|, o) == []
  {
  }

  lemma NextBuf(bufs: seq<seq<byte>>, l: nat, o: nat)
    requires l < |bufs| && o <= |bufs[l]|
    ensures From(bufs, l, o) == bufs[l][o..] + From(bufs, l + 1, 0)
  {
    RestFrom(bufs, l + 1);
  }

  lemma GetHere(bufs: seq<seq<byte>>, l: nat, o: nat, n: nat, s: seq<byte>)
    requires l < |bufs| && o + n <= |bufs[l]|
    ensures var all := s + From(bufs, l, o);
            && |s| + n <= |all| && all[..|s| + n] == s + bufs[l][o..o + n] && all[|s| + n..] == From(bufs, l, o + n)
  {
  }
}
