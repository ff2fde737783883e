/**
 AMF0 values (sections 2.2 to 2.12 of the AMF 0 specification) as the server reads and writes them: by a list of
 elements, each with a type, a name and a place for its value. Here the input is one flat byte string.
 */
module AmfFormat {
  import opened Bytes
  import opened Wrappers

  const NUMBER := 0x00
  const BOOLEAN := 0x01
  const STRING := 0x02
  const OBJECT := 0x03
  const NULL := 0x05
  const ARRAY_NULL := 0x06
  const MIXED_ARRAY := 0x08
  const END := 0x09
  const ARRAY := 0x0a
  const INT8 := 0x0100
  const INT16 := 0x0101
  const INT32 := 0x0102
  const VARIANT := 0x0103

  /**
   Where a value is, or goes: nowhere, in memory, in a list of elements, or, for the CONTEXT flag, still in the input.
   */
  datatype Data = Null | Cell(bytes: seq<byte>) | Elts(elts: seq<Elt>) | At(input: seq<byte>)

  /** An element. `len` is the length of a string to write; a string to read has the whole cell. */
  datatype Elt = Elt(code: nat, optional: bool, typeless: bool, context: bool, name: seq<byte>, data: Data, len: nat)

  // ----- putting a value where it goes -----

  /** The bytes at the start of a cell that is big enough. */
  function Put(d: Data, s: seq<byte>): Data {
    if d.Cell? && |s| <= |d.bytes| then Cell(s + d.bytes[|s|..]) else d
  }

  function Reversed(s: seq<byte>): (r: seq<byte>)
    ensures |r| == |s|
  {
    if s == [] then [] else Reversed(s[1..]) + [s[0]]
  }

  /** A string with its terminating zero, cut to what the cell holds. */
  function PutString(d: Data, s: seq<byte>): Data {
    if !d.Cell? || d.bytes == [] then d
    else if |d.bytes| <= |s| then Cell(s[..|d.bytes| - 1] + [0])
    else Put(d, s + [0])
  }

  function FieldsOf(d: Data): seq<Elt> {
    if d.Elts? then d.elts else []
  }

  function WithFields(d: Data, elts: seq<Elt>): Data {
    if d.Elts? then Elts(elts) else d
  }

  /** A type in the input goes to an element of the same type; objects and mixed arrays go for each other. */
  predicate Compatible(want: nat, code: nat) {
    want == code || (want == OBJECT && code == MIXED_ARRAY) || (want == MIXED_ARRAY && code == OBJECT)
  }

  /** What strncmp says of two strings of one length: they are the same up to a zero. */
  predicate SameUpToZero(a: seq<byte>, b: seq<byte>)
    requires |a| == |b|
  {
    a == [] || (a[0] == b[0] && (a[0] == 0 || SameUpToZero(a[1..], b[1..])))
  }

  predicate SameName(name: seq<byte>, key: seq<byte>) {
    |name| == |key| && SameUpToZero(name, key)
  }

  /** The first element of that name, or the number of elements. */
  function IndexOf(elts: seq<Elt>, key: seq<byte>): (n: nat)
    ensures n <= |elts|
    ensures n < |elts| ==> SameName(elts[n].name, key)
    ensures forall i :: 0 <= i < n ==> !SameName(elts[i].name, key)
  {
    if elts == [] || SameName(elts[0].name, key) then 0 else 1 + IndexOf(elts[1..], key)
  }

  /** The last element of exactly that type and no flags, or the number of elements. */
  function VariantOf(elts: seq<Elt>, code: nat): (n: nat)
    ensures n <= |elts|
  {
    if elts == [] then 0
    else
      var n := VariantOf(elts[1..], code);
      if n < |elts| - 1 then n + 1
      else if elts[0].code == code && !elts[0].optional && !elts[0].typeless && !elts[0].context then 0
      else |elts|
  }

  /** The element of the type without a flag is found, the last one if there are several. */
  lemma {:induction false} VariantExact(elts: seq<Elt>, code: nat, i: nat)
    requires i < |elts|
    ensures VariantOf(elts, code) == i ==>
      elts[i].code == code && !elts[i].optional && !elts[i].typeless && !elts[i].context
    ensures elts[i].code == code && !elts[i].optional && !elts[i].typeless && !elts[i].context ==>
      i <= VariantOf(elts, code) < |elts|
    decreases elts
  {
    if i > 0 {
      VariantExact(elts[1..], code, i - 1);
    }
  }

  // ----- reading -----

  /**
   What reading one element comes to. `stop` ends the list of elements that is being read, without an error. `Crashed`
   is the flags read of an element that there is not: the source looks at them through a null pointer.
   */
  datatype Got = Failed | Crashed | Got(data: Data, rest: seq<byte>, stop: bool)
  datatype GotElts = NoElts | CrashedElts | GotElts(elts: seq<Elt>, rest: seq<byte>)

  /** A list breaks off where one of its elements does. */
  function Broken(r: Got): GotElts {
    if r.Crashed? then CrashedElts else NoElts
  }

  /** A value that is a list of elements. */
  function GotFields(r: GotElts, d: Data): Got {
    match r
    case NoElts => Failed
    case CrashedElts => Crashed
    case GotElts(elts, rest) => Got(WithFields(d, elts), rest, false)
  }

  /** The element that the name or index selects is overwritten; a value without an element goes nowhere. */
  function Stored(elts: seq<Elt>, n: nat, d: Data): seq<Elt> {
    if n < |elts| then elts[n := elts[n].(data := d)] else elts
  }

  function Selected(elts: seq<Elt>, n: nat): Option<Elt> {
    if n < |elts| then Some(elts[n]) else None
  }

  /** One element: its type, unless that is known, and then its value. */
  function ReadElt(s: seq<byte>, e: Option<Elt>): (r: Got)
    ensures r.Got? ==> |r.rest| <= |s|
    ensures r.Got? && e.None? ==> |r.rest| < |s|
    decreases |s|, 3
  {
    if e.Some? && e.value.typeless then
      // the other flags are left in the type, which is then none of those known
      if e.value.optional || e.value.context then Failed else ReadValue(s, e.value.code, e.value.data)
    else if |s| < 1 then
      if e.None? then Crashed else if e.value.optional then Got(e.value.data, s, true) else Failed
    else
      var code := s[0] as nat;
      if e.None? then ReadValue(s[1..], code, Null)
      else
        var fits := Compatible(e.value.code % 0x100, code);
        if e.value.context then
          var r := ReadValue(s[1..], code, Null);
          if !r.Got? then r else r.(data := if fits && !e.value.data.Null? then At(s[1..]) else e.value.data)
        else
          var r := ReadValue(s[1..], code, if fits then e.value.data else Null);
          if !r.Got? || fits then r else r.(data := e.value.data)
  }

  /** A value of a known type. */
  function ReadValue(s: seq<byte>, code: nat, d: Data): (r: Got)
    ensures r.Got? ==> |r.rest| <= |s|
    decreases |s|, 2
  {
    if code == NUMBER then
      if |s| < 8 then Failed else Got(Put(d, Reversed(s[..8])), s[8..], false)
    else if code == BOOLEAN || code == INT8 then
      if |s| < 1 then Failed else Got(Put(d, s[..1]), s[1..], false)
    else if code == STRING then
      if |s| < 2 || |s| < 2 + Be16(s, 0) then Failed
      else Got(PutString(d, s[2..2 + Be16(s, 0)]), s[2 + Be16(s, 0)..], false)
    else if code == NULL || code == ARRAY_NULL then Got(d, s, false)
    else if code == OBJECT then
      GotFields(ReadFields(s, FieldsOf(d)), d)
    else if code == MIXED_ARRAY then
      if |s| < 4 then Failed else GotFields(ReadFields(s[4..], FieldsOf(d)), d)
    else if code == ARRAY then
      if |s| < 4 then Failed else GotFields(ReadItems(s[4..], FieldsOf(d), 0, Be32(s, 0)), d)
    else if code == VARIANT then
      GotFields(ReadVariant(s, FieldsOf(d)), d)
    else if code == INT16 then
      if |s| < 2 then Failed else Got(Put(d, Reversed(s[..2])), s[2..], false)
    else if code == INT32 then
      if |s| < 4 then Failed else Got(Put(d, Reversed(s[..4])), s[4..], false)
    else if code == END then Got(d, s, true)
    else Failed
  }

  /** The fields of an object up to its end mark; an input that breaks off before a key ends it too. */
  function ReadFields(s: seq<byte>, elts: seq<Elt>): (r: GotElts)
    ensures r.GotElts? ==> |r.rest| <= |s|
    decreases |s|, 1
  {
    if |s| < 2 then GotElts(elts, s)
    else
      var len := Be16(s, 0);
      if len == 0 then
        if |s| < 3 || s[2] as nat != END then NoElts else GotElts(elts, s[3..])
      else if |s| < 2 + len then NoElts
      else
        var n := IndexOf(elts, s[2..2 + len]);
        var r := ReadElt(s[2 + len..], Selected(elts, n));
        if !r.Got? then Broken(r) else ReadFields(r.rest, Stored(elts, n, r.data))
  }

  /** Items `n` to `len - 1` of a strict array. */
  function ReadItems(s: seq<byte>, elts: seq<Elt>, n: nat, len: nat): (r: GotElts)
    ensures r.GotElts? ==> |r.rest| <= |s|
    decreases |s|, 4, len - n
  {
    if n >= len then GotElts(elts, s)
    else
      var r := ReadElt(s, Selected(elts, n));
      if !r.Got? then Broken(r) else ReadItems(r.rest, Stored(elts, n, r.data), n + 1, len)
  }

  /** A value of whatever type it says, for the element that has that type. */
  function ReadVariant(s: seq<byte>, elts: seq<Elt>): (r: GotElts)
    ensures r.GotElts? ==> |r.rest| <= |s|
    decreases |s|, 1
  {
    if |s| < 1 then NoElts
    else
      var n := VariantOf(elts, s[0]);
      var r := ReadValue(s[1..], s[0], if n < |elts| then elts[n].data else Null);
      if !r.Got? then Broken(r) else GotElts(Stored(elts, n, r.data), r.rest)
  }

  /** ngx_rtmp_amf_read: the elements from `n` on, one after the other. */
  function ReadElts(s: seq<byte>, elts: seq<Elt>, n: nat): (r: GotElts)
    requires n <= |elts|
    decreases |elts| - n
  {
    if n == |elts| then GotElts(elts, s)
    else
      var r := ReadElt(s, Some(elts[n]));
      if !r.Got? then Broken(r)
      else if r.stop then GotElts(Stored(elts, n, r.data), r.rest)
      else ReadElts(r.rest, Stored(elts, n, r.data), n + 1)
  }

  // ----- writing -----

  /** The characters of a string to write: by its length, or up to its zero if the length is not given. */
  function Text(e: Elt): (r: seq<byte>)
    ensures |r| < 0x1_0000
  {
    var cell := if e.data.Cell? then e.data.bytes else [];
    var len := e.len % 0x1_0000;
    if len == 0 then UpToZero(cell)[..|UpToZero(cell)| % 0x1_0000] else if len <= |cell| then cell[..len] else []
  }

  function UpToZero(s: seq<byte>): (r: seq<byte>)
    ensures |r| <= |s|
  {
    if s == [] || s[0] == 0 then [] else [s[0]] + UpToZero(s[1..])
  }

  /** The cell of a value to write holds at least `n` bytes. */
  predicate Holds(d: Data, n: nat) {
    d.Cell? && |d.bytes| >= n
  }

  function EncodeElt(e: Elt): (r: Option<seq<byte>>)
    decreases e, 1
  {
    if e.optional || e.context then None
    else
      var v := EncodeValue(e);
      if v.None? then None else Some(if e.typeless then v.value else [(e.code % 0x100) as byte] + v.value)
  }

  function EncodeValue(e: Elt): Option<seq<byte>>
    decreases e, 0
  {
    if e.code == NUMBER then if Holds(e.data, 8) then Some(Reversed(e.data.bytes[..8])) else None
    else if e.code == BOOLEAN || e.code == INT8 then if Holds(e.data, 1) then Some(e.data.bytes[..1]) else None
    else if e.code == STRING then Some(PutBe16(|Text(e)|) + Text(e))
    else if e.code == NULL || e.code == ARRAY_NULL then Some([])
    else if e.code == OBJECT || e.code == MIXED_ARRAY then
      var f := if e.data.Elts? then EncodeFields(e.data.elts) else Some([]);
      if f.None? then None
      else Some((if e.code == MIXED_ARRAY then [0, 0, 0, 0] else []) + f.value + [0, 0, END as byte])
    else if e.code == ARRAY then
      var items := if e.data.Elts? then e.data.elts else [];
      var f := if e.data.Elts? then EncodeElts(e.data.elts) else Some([]);
      if f.None? then None else Some(PutBe32(Wrap(|items|)) + f.value)
    else if e.code == INT16 then if Holds(e.data, 2) then Some(Reversed(e.data.bytes[..2])) else None
    else if e.code == INT32 then if Holds(e.data, 4) then Some(Reversed(e.data.bytes[..4])) else None
    else None
  }

  function EncodeFields(elts: seq<Elt>): Option<seq<byte>>
    decreases elts
  {
    if elts == [] then Some([])
    else
      var e, rest := EncodeElt(elts[0]), EncodeFields(elts[1..]);
      if e.None? || rest.None? then None
      else Some(PutBe16(|elts[0].name| % 0x1_0000) + elts[0].name[..|elts[0].name| % 0x1_0000] + e.value + rest.value)
  }

  /** ngx_rtmp_amf_write: one element after the other. */
  function EncodeElts(elts: seq<Elt>): Option<seq<byte>>
    decreases elts
  {
    if elts == [] then Some([])
    else
      var e, rest := EncodeElt(elts[0]), EncodeElts(elts[1..]);
      if e.None? || rest.None? then None else Some(e.value + rest.value)
  }
}
