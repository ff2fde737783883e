/** Reading what was written: every written value reaches the element of its name and type, and nothing else changes. */
module AmfRoundTrip {
  import opened Bytes
  import opened Wrappers
  import opened AmfFormat

  /** An element that can be written with its type, and all that it contains: named fields have a name to read back. */
  predicate Plain(w: Elt)
    decreases w, 1
  {
    && !w.typeless && !w.optional && !w.context
    && (w.code == NUMBER || w.code == BOOLEAN || w.code == STRING || w.code == NULL || w.code == ARRAY_NULL
        || w.code == OBJECT || w.code == MIXED_ARRAY || w.code == ARRAY)
    && (w.code == NUMBER ==> w.data.Cell? && |w.data.bytes| >= 8)
    && (w.code == BOOLEAN ==> w.data.Cell? && |w.data.bytes| >= 1)
    && (w.data.Elts? ==> AllPlain(w.data.elts)
                         && if w.code == ARRAY then |w.data.elts| < U32 else AllNamed(w.data.elts))
  }

  predicate AllPlain(ws: seq<Elt>)
    decreases ws, 0
  {
    ws == [] || (Plain(ws[0]) && AllPlain(ws[1..]))
  }

  predicate AllNamed(ws: seq<Elt>) {
    ws == [] || (1 <= |ws[0].name| < 0x1_0000 && AllNamed(ws[1..]))
  }

  /** An element to read into, with its type in the input, and all that it contains. */
  predicate Target(r: Elt)
    decreases r, 1
  {
    !r.typeless && !r.context && r.code < 0x100 && (r.data.Elts? ==> AllTargets(r.data.elts))
  }

  predicate AllTargets(elts: seq<Elt>)
    ensures AllTargets(elts) ==> forall i :: 0 <= i < |elts| ==> Target(elts[i])
    decreases elts, 0
  {
    elts == [] || (Target(elts[0]) && AllTargets(elts[1..]))
  }

  lemma TargetsUpdated(elts: seq<Elt>, n: nat, r: Elt)
    requires AllTargets(elts) && n < |elts| && Target(r)
    ensures AllTargets(elts[n := r])
    decreases elts
  {
    if n > 0 {
      TargetsUpdated(elts[1..], n - 1, r);
      assert elts[n := r][1..] == elts[1..][n - 1 := r];
    } else {
      assert elts[n := r][1..] == elts[1..];
    }
  }

  // ----- what reading should give, said without any bytes -----

  /** The written value of an element, in the place `d`. */
  function FillData(w: Elt, d: Data): Data
    decreases w, 0
  {
    if w.code == NUMBER then if w.data.Cell? && |w.data.bytes| >= 8 then Put(d, w.data.bytes[..8]) else d
    else if w.code == BOOLEAN then if w.data.Cell? && |w.data.bytes| >= 1 then Put(d, w.data.bytes[..1]) else d
    else if w.code == STRING then PutString(d, Text(w))
    else if w.code == OBJECT || w.code == MIXED_ARRAY then
      if w.data.Elts? then WithFields(d, FillFields(w.data.elts, FieldsOf(d))) else d
    else if w.code == ARRAY then
      if w.data.Elts? then WithFields(d, FillItems(w.data.elts, 0, FieldsOf(d))) else d
    else d
  }

  /** A written element goes to an element of a compatible type. */
  function Fill(w: Elt, r: Elt): Elt
    decreases w, 1
  {
    if Compatible(r.code, w.code) then r.(data := FillData(w, r.data)) else r
  }

  /** Each written field goes to the element of its name. */
  function FillFields(ws: seq<Elt>, elts: seq<Elt>): (r: seq<Elt>)
    ensures |r| == |elts|
    decreases ws
  {
    if ws == [] then elts
    else
      var n := IndexOf(elts, ws[0].name);
      FillFields(ws[1..], if n < |elts| then elts[n := Fill(ws[0], elts[n])] else elts)
  }

  /** Each item of a strict array goes to the element of its index. */
  function FillItems(ws: seq<Elt>, n: nat, elts: seq<Elt>): (r: seq<Elt>)
    ensures |r| == |elts|
    decreases ws
  {
    if ws == [] then elts
    else FillItems(ws[1..], n + 1, if n < |elts| then elts[n := Fill(ws[0], elts[n])] else elts)
  }

  predicate TargetData(d: Data) {
    d.Elts? ==> AllTargets(d.elts)
  }

  /** Elements to read into stay so. */
  lemma {:induction false} FillDataKeepsTarget(w: Elt, d: Data)
    requires TargetData(d)
    ensures TargetData(FillData(w, d))
    decreases w, 0
  {
    if d.Elts? && w.data.Elts? {
      if w.code == OBJECT || w.code == MIXED_ARRAY {
        FillFieldsKeepsTargets(w.data.elts, d.elts);
      } else if w.code == ARRAY {
        FillItemsKeepsTargets(w.data.elts, 0, d.elts);
      }
    }
  }

  lemma {:induction false} FillKeepsTarget(w: Elt, r: Elt)
    requires Target(r)
    ensures Target(Fill(w, r))
    decreases w, 1
  {
    FillDataKeepsTarget(w, r.data);
  }

  lemma {:induction false} FillFieldsKeepsTargets(ws: seq<Elt>, elts: seq<Elt>)
    requires AllTargets(elts)
    ensures AllTargets(FillFields(ws, elts))
    decreases ws
  {
    if ws != [] {
      var n := IndexOf(elts, ws[0].name);
      if n < |elts| {
        FillKeepsTarget(ws[0], elts[n]);
        TargetsUpdated(elts, n, Fill(ws[0], elts[n]));
      }
      FillFieldsKeepsTargets(ws[1..], if n < |elts| then elts[n := Fill(ws[0], elts[n])] else elts);
    }
  }

  lemma {:induction false} FillItemsKeepsTargets(ws: seq<Elt>, n: nat, elts: seq<Elt>)
    requires AllTargets(elts)
    ensures AllTargets(FillItems(ws, n, elts))
    decreases ws
  {
    if ws != [] {
      if n < |elts| {
        FillKeepsTarget(ws[0], elts[n]);
        TargetsUpdated(elts, n, Fill(ws[0], elts[n]));
      }
      FillItemsKeepsTargets(ws[1..], n + 1, if n < |elts| then elts[n := Fill(ws[0], elts[n])] else elts);
    }
  }

  // ----- the round trip -----

  lemma ReversedTwice(s: seq<byte>)
    ensures Reversed(Reversed(s)) == s
  {
    if s != [] {
      ReversedTwice(s[1..]);
      ReversedAppend(Reversed(s[1..]), s[0]);
    }
  }

  lemma ReversedAppend(s: seq<byte>, b: byte)
    ensures Reversed(s + [b]) == [b] + Reversed(s)
  {
    if s == [] {
      assert [] + [b] == [b];
    } else {
      ReversedAppend(s[1..], b);
      assert (s + [b])[1..] == s[1..] + [b];
    }
  }

  lemma NumberRoundTrip(w: Elt, d: Data, rest: seq<byte>)
    requires w.code == NUMBER && Holds(w.data, 8)
    ensures EncodeValue(w).Some? && ReadValue(EncodeValue(w).value + rest, NUMBER, d)
            == Got(FillData(w, d), rest, false)
  {
    var s := EncodeValue(w).value + rest;
    ReversedTwice(w.data.bytes[..8]);
    assert s[..8] == Reversed(w.data.bytes[..8]) && s[8..] == rest;
  }

  lemma StringRoundTrip(w: Elt, d: Data, rest: seq<byte>)
    requires w.code == STRING
    ensures EncodeValue(w).Some? && ReadValue(EncodeValue(w).value + rest, STRING, d)
            == Got(FillData(w, d), rest, false)
  {
    var t := Text(w);
    var s := PutBe16(|t|) + t + rest;
    assert s[0..0 + 2] == PutBe16(|t|);
    Be16RoundTrip(|t|, s, 0);
    assert s[2..2 + |t|] == t && s[2 + |t|..] == rest;
  }

  lemma ShortRoundTrip(w: Elt, d: Data, rest: seq<byte>)
    requires (w.code == BOOLEAN && Holds(w.data, 1)) || w.code == NULL || w.code == ARRAY_NULL
    ensures EncodeValue(w).Some? && ReadValue(EncodeValue(w).value + rest, w.code, d)
            == Got(FillData(w, d), rest, false)
  {
    var s := EncodeValue(w).value + rest;
    if w.code == BOOLEAN {
      assert s[..1] == w.data.bytes[..1] && s[1..] == rest;
    } else {
      assert s == rest;
    }
  }

  lemma {:induction false} ObjectRoundTrip(w: Elt, d: Data, rest: seq<byte>)
    requires Plain(w) && (w.code == OBJECT || w.code == MIXED_ARRAY) && TargetData(d)
    ensures EncodeValue(w).Some? && ReadValue(EncodeValue(w).value + rest, w.code, d)
            == Got(FillData(w, d), rest, false)
    decreases w, 0
  {
    hide ReadFields, EncodeFields, FillFields, Target, Plain, AllPlain, AllNamed, EncodeValue, ReadValue, FillData;
    var ws := FieldsOf(w.data);
    PlainFields(w);
    NoFields(FieldsOf(d));
    if w.data.Elts? {
      FieldsRoundTrip(w.data.elts, FieldsOf(d), rest);
    } else {
      FieldsEnd(FieldsOf(d), rest);
    }
    var fields, end := EncodeFields(ws).value, [0, 0, END as byte];
    ObjectParts(w, d, fields + end + rest);
    InFront(if w.code == MIXED_ARRAY then [0, 0, 0, 0] else [], fields, end, rest);
  }

  /** What an object is written as, read from and filled with, in terms of its fields. */
  lemma ObjectParts(w: Elt, d: Data, body: seq<byte>)
    requires w.code == OBJECT || w.code == MIXED_ARRAY
    ensures var ws, head := FieldsOf(w.data), if w.code == MIXED_ARRAY then [0, 0, 0, 0] else [];
            && (EncodeFields(ws).Some? ==> EncodeValue(w) == Some(head + EncodeFields(ws).value + [0, 0, END as byte]))
            && (var r := ReadFields(body, FieldsOf(d));
                ReadValue(head + body, w.code, d) == GotFields(r, d))
            && FillData(w, d) == WithFields(d, FillFields(ws, FieldsOf(d)))
  {
    hide ReadFields, EncodeFields, FillFields, Reversed, Put, PutString, Text, Be16, Be32;
    NoFields(FieldsOf(d));
    if w.code == MIXED_ARRAY {
      assert ([0, 0, 0, 0] + body)[4..] == body;
    } else {
      assert [] + body == body;
    }
  }

  lemma InFront(head: seq<byte>, fields: seq<byte>, end: seq<byte>, rest: seq<byte>)
    ensures (head + fields + end) + rest == head + (fields + end + rest)
  {
  }

  lemma PlainFields(w: Elt)
    requires Plain(w)
    ensures AllPlain(FieldsOf(w.data)) && (w.code != ARRAY ==> AllNamed(FieldsOf(w.data)))
    ensures w.code == ARRAY ==> |FieldsOf(w.data)| < U32
  {
  }

  lemma NoFields(elts: seq<Elt>)
    ensures FillFields([], elts) == elts && EncodeFields([]) == Some([]) && FillItems([], 0, elts) == elts
    ensures EncodeElts([]) == Some([])
  {
  }

  lemma {:induction false} ArrayRoundTrip(w: Elt, d: Data, rest: seq<byte>)
    requires Plain(w) && w.code == ARRAY && TargetData(d)
    ensures EncodeValue(w).Some? && ReadValue(EncodeValue(w).value + rest, ARRAY, d) == Got(FillData(w, d), rest, false)
    decreases w, 0
  {
    hide ReadItems, EncodeElts, FillItems, Target, Plain, AllPlain;
    var ws := FieldsOf(w.data);
    PlainFields(w);
    NoFields(FieldsOf(d));
    if w.data.Elts? {
      ItemsRoundTrip(w.data.elts, FieldsOf(d), 0, |ws|, rest);
    } else {
      assert [] + rest == rest;
      ItemsEnd(FieldsOf(d), rest);
    }
    var s := EncodeValue(w).value + rest;
    assert s == PutBe32(|ws|) + (EncodeElts(ws).value + rest);
    assert s[0..0 + 4] == PutBe32(|ws|) && s[4..] == EncodeElts(ws).value + rest;
    Be32RoundTrip(|ws|, s, 0);
  }

  /** A value, read back from its encoding and whatever follows. */
  lemma {:induction false} ValueRoundTrip(w: Elt, d: Data, rest: seq<byte>)
    requires Plain(w) && TargetData(d)
    ensures EncodeValue(w).Some? && ReadValue(EncodeValue(w).value + rest, w.code, d)
            == Got(FillData(w, d), rest, false)
    decreases w, 1
  {
    hide ReadValue, EncodeValue, FillData, TargetData;
    if w.code == NUMBER {
      NumberRoundTrip(w, d, rest);
    } else if w.code == STRING {
      StringRoundTrip(w, d, rest);
    } else if w.code == OBJECT || w.code == MIXED_ARRAY {
      ObjectRoundTrip(w, d, rest);
    } else if w.code == ARRAY {
      ArrayRoundTrip(w, d, rest);
    } else {
      ShortRoundTrip(w, d, rest);
    }
  }

  function FillSome(w: Elt, e: Option<Elt>): Data {
    if e.Some? then Fill(w, e.value).data else FillData(w, Null)
  }

  lemma FillNothing(w: Elt)
    ensures FillData(w, Null) == Null
  {
  }

  lemma PlainCode(w: Elt)
    requires Plain(w)
    ensures w.code < 0x100 && !w.typeless && !w.optional && !w.context
  {
  }

  /**
   An element, for the place of its name or index if there is one; one without a place, or for a place of another type,
   is passed over.
   */
  lemma {:induction false} EltRoundTrip(w: Elt, e: Option<Elt>, rest: seq<byte>)
    requires Plain(w) && (e.Some? ==> Target(e.value))
    ensures EncodeElt(w).Some? && ReadElt(EncodeElt(w).value + rest, e) == Got(FillSome(w, e), rest, false)
    decreases w, 2
  {
    hide ReadValue, EncodeValue, FillData, Plain;
    var d := if e.Some? && Compatible(e.value.code, w.code) then e.value.data else Null;
    ValueRoundTrip(w, d, rest);
    FillNothing(w);
    PlainCode(w);
    var s := EncodeElt(w).value + rest;
    assert s[0] as nat == w.code && s[1..] == EncodeValue(w).value + rest;
  }

  /**
   An element that asks for its place in the input gets the input from the value on, if it has a place to put that and
   the type is its own, and the value is passed over.
   */
  lemma ContextRoundTrip(w: Elt, e: Elt, rest: seq<byte>)
    requires Plain(w) && e.context && !e.typeless && e.code < 0x100
    ensures EncodeElt(w).Some? && EncodeValue(w).Some?
    ensures var fits := e.code == w.code || {e.code, w.code} == {OBJECT, MIXED_ARRAY};
            ReadElt(EncodeElt(w).value + rest, Some(e))
            == Got(if fits && e.data != Null then At(EncodeValue(w).value + rest) else e.data, rest, false)
  {
    hide ReadValue, EncodeValue, FillData, Plain;
    ValueRoundTrip(w, Null, rest);
    FillNothing(w);
    PlainCode(w);
    var s := EncodeElt(w).value + rest;
    assert s[0] as nat == w.code && s[1..] == EncodeValue(w).value + rest;
    assert {e.code, w.code} == {OBJECT, MIXED_ARRAY} <==>
      (e.code == OBJECT && w.code == MIXED_ARRAY) || (e.code == MIXED_ARRAY && w.code == OBJECT) by {
      assert OBJECT in {OBJECT, MIXED_ARRAY} && MIXED_ARRAY in {OBJECT, MIXED_ARRAY};
    }
  }

  lemma {:induction false} FieldsRoundTrip(ws: seq<Elt>, elts: seq<Elt>, rest: seq<byte>)
    requires AllPlain(ws) && AllNamed(ws) && AllTargets(elts)
    ensures EncodeFields(ws).Some?
    ensures ReadFields(EncodeFields(ws).value + [0, 0, END as byte] + rest, elts) == GotElts(FillFields(ws, elts), rest)
    decreases ws
  {
    hide ReadElt, EncodeElt, Fill, Plain, Target, IndexOf, ReadFields, FillFields, EncodeFields, AllTargets, Selected,
         Stored, PutBe16, Be16;
    var end := [0, 0, END as byte];
    if ws == [] {
      FieldsEnd(elts, rest);
    } else {
      var w := ws[0];
      var n := IndexOf(elts, w.name);
      var e := Selected(elts, n);
      var elts' := if n < |elts| then elts[n := Fill(w, elts[n])] else elts;
      if n < |elts| {
        FillKeepsTarget(w, elts[n]);
        TargetsUpdated(elts, n, Fill(w, elts[n]));
      }
      FieldsRoundTrip(ws[1..], elts', rest);
      SelectedIs(elts, n);
      var tail := EncodeFields(ws[1..]).value + end + rest;
      EltRoundTrip(w, e, tail);
      StoredIsFilled(w, elts, n);
      EncodesFirst(ws);
      var s := EncodeFields(ws).value + end + rest;
      assert s == PutBe16(|w.name|) + w.name + (EncodeElt(w).value + tail);
      KeyRead(w.name, EncodeElt(w).value + tail);
      OneField(s, elts, w.name, EncodeElt(w).value + tail);
      FillsFirst(ws, elts);
    }
  }

  lemma FieldsEnd(elts: seq<Elt>, rest: seq<byte>)
    ensures EncodeFields([]) == Some([]) && FillFields([], elts) == elts
    ensures ReadFields([] + [0, 0, END as byte] + rest, elts) == GotElts(elts, rest)
  {
    var s := [] + [0, 0, END as byte] + rest;
    assert s[0] == 0 && s[1] == 0 && s[2] == 9 && s[3..] == rest;
  }

  /** Reading a key, its value and then the other fields. */
  lemma OneField(s: seq<byte>, elts: seq<Elt>, name: seq<byte>, value: seq<byte>)
    requires 1 <= |name| && |s| >= 2 + |name| && Be16(s, 0) == |name|
    requires s[2..2 + |name|] == name && s[2 + |name|..] == value
    ensures var n := IndexOf(elts, name);
            var r := ReadElt(value, Selected(elts, n));
            ReadFields(s, elts) == if !r.Got? then Broken(r) else ReadFields(r.rest, Stored(elts, n, r.data))
  {
    hide ReadElt, IndexOf;
  }

  lemma EncodesFirst(ws: seq<Elt>)
    requires ws != [] && |ws[0].name| < 0x1_0000 && EncodeElt(ws[0]).Some? && EncodeFields(ws[1..]).Some?
    ensures EncodeFields(ws)
            == Some(PutBe16(|ws[0].name|) + ws[0].name + EncodeElt(ws[0]).value + EncodeFields(ws[1..]).value)
  {
    hide EncodeElt, PutBe16;
    var name := ws[0].name;
    assert |name| % 0x1_0000 == |name| && name[..|name|] == name;
  }

  lemma SelectedIs(elts: seq<Elt>, n: nat)
    ensures Selected(elts, n) == if n < |elts| then Some(elts[n]) else None
  {
  }

  lemma FillsFirst(ws: seq<Elt>, elts: seq<Elt>)
    requires ws != []
    ensures var n := IndexOf(elts, ws[0].name);
            FillFields(ws, elts) == FillFields(ws[1..], if n < |elts| then elts[n := Fill(ws[0], elts[n])] else elts)
  {
    hide Fill, IndexOf;
  }

  lemma ItemsStop(elts: seq<Elt>, n: nat, rest: seq<byte>)
    ensures ReadItems(rest, elts, n, n) == GotElts(elts, rest) && FillItems([], n, elts) == elts
  {
  }

  lemma EncodesFirstItem(ws: seq<Elt>)
    requires ws != [] && EncodeElt(ws[0]).Some? && EncodeElts(ws[1..]).Some?
    ensures EncodeElts(ws) == Some(EncodeElt(ws[0]).value + EncodeElts(ws[1..]).value)
  {
    hide EncodeElt;
  }

  lemma FillsFirstItem(ws: seq<Elt>, n: nat, elts: seq<Elt>)
    requires ws != []
    ensures FillItems(ws, n, elts)
            == FillItems(ws[1..], n + 1, if n < |elts| then elts[n := Fill(ws[0], elts[n])] else elts)
  {
    hide Fill;
  }

  lemma OneItem(s: seq<byte>, elts: seq<Elt>, n: nat, len: nat)
    requires n < len
    ensures var r := ReadElt(s, Selected(elts, n));
            ReadItems(s, elts, n, len)
            == if !r.Got? then Broken(r) else ReadItems(r.rest, Stored(elts, n, r.data), n + 1, len)
  {
    hide ReadElt;
  }

  lemma ItemsEnd(elts: seq<Elt>, rest: seq<byte>)
    ensures ReadItems(rest, elts, 0, 0) == GotElts(elts, rest)
  {
  }

  lemma StoredIsFilled(w: Elt, elts: seq<Elt>, n: nat)
    ensures Stored(elts, n, FillSome(w, Selected(elts, n)))
            == if n < |elts| then elts[n := Fill(w, elts[n])] else elts
  {
  }

  lemma KeyRead(name: seq<byte>, rest: seq<byte>)
    requires 1 <= |name| < 0x1_0000
    ensures var s := PutBe16(|name|) + name + rest;
            && |s| >= 2 + |name| && Be16(s, 0) == |name| && s[2..2 + |name|] == name && s[2 + |name|..] == rest
  {
    var s := PutBe16(|name|) + name + rest;
    assert s[0..0 + 2] == PutBe16(|name|);
    Be16RoundTrip(|name|, s, 0);
  }

  lemma {:induction false} ItemsRoundTrip(ws: seq<Elt>, elts: seq<Elt>, n: nat, len: nat, rest: seq<byte>)
    requires AllPlain(ws) && AllTargets(elts) && n + |ws| == len
    ensures EncodeElts(ws).Some?
    ensures ReadItems(EncodeElts(ws).value + rest, elts, n, len) == GotElts(FillItems(ws, n, elts), rest)
    decreases ws
  {
    hide ReadElt, EncodeElt, EncodeElts, ReadItems, FillItems, Fill, Plain, Target, AllTargets, Selected, Stored;
    if ws == [] {
      NoFields(elts);
      ItemsStop(elts, n, rest);
      assert [] + rest == rest;
    } else {
      var w := ws[0];
      var elts' := if n < |elts| then elts[n := Fill(w, elts[n])] else elts;
      if n < |elts| {
        FillKeepsTarget(w, elts[n]);
        TargetsUpdated(elts, n, Fill(w, elts[n]));
      }
      ItemsRoundTrip(ws[1..], elts', n + 1, len, rest);
      var tail := EncodeElts(ws[1..]).value + rest;
      SelectedIs(elts, n);
      EltRoundTrip(w, Selected(elts, n), tail);
      StoredIsFilled(w, elts, n);
      EncodesFirstItem(ws);
      FillsFirstItem(ws, n, elts);
      assert EncodeElts(ws).value + rest == EncodeElt(w).value + tail;
      OneItem(EncodeElts(ws).value + rest, elts, n, len);
    }
  }

  // ----- the elements of one call -----

  /** The integers of the server's own, which are written and read without a type. */
  predicate Bare(w: Elt) {
    && w.typeless && !w.optional && !w.context
    && (w.code == INT8 || w.code == INT16 || w.code == INT32)
    && w.data.Cell? && |w.data.bytes| >= if w.code == INT8 then 1 else if w.code == INT16 then 2 else 4
  }

  /** An element to read a value of type `code` into, without its type in the input. */
  predicate Untyped(r: Elt, code: nat) {
    r.typeless && !r.optional && !r.context && r.code == code
  }

  /** A written element and the one to read it into. */
  predicate Suits(w: Elt, r: Elt) {
    (Plain(w) && Target(r)) || (Bare(w) && Untyped(r, w.code))
  }

  function BareData(w: Elt, d: Data): Data
    requires Bare(w)
  {
    Put(d, w.data.bytes[..if w.code == INT8 then 1 else if w.code == INT16 then 2 else 4])
  }

  /** The element after the call. */
  function Filled(w: Elt, r: Elt): Elt {
    if Bare(w) then r.(data := BareData(w, r.data)) else Fill(w, r)
  }

  lemma BareRoundTrip(w: Elt, r: Elt, rest: seq<byte>)
    requires Bare(w) && Untyped(r, w.code)
    ensures EncodeElt(w).Some? && ReadElt(EncodeElt(w).value + rest, Some(r)) == Got(BareData(w, r.data), rest, false)
  {
    var k := if w.code == INT8 then 1 else if w.code == INT16 then 2 else 4;
    var v := w.data.bytes[..k];
    ReversedTwice(v);
    assert EncodeValue(w) == Some(if w.code == INT8 then v else Reversed(v));
    assert EncodeElt(w) == EncodeValue(w);
    var s := EncodeElt(w).value + rest;
    assert s[k..] == rest && s[..k] == EncodeElt(w).value;
  }

  lemma {:induction false} OneRoundTrip(w: Elt, r: Elt, rest: seq<byte>)
    requires Suits(w, r)
    ensures EncodeElt(w).Some? && ReadElt(EncodeElt(w).value + rest, Some(r)) == Got(Filled(w, r).data, rest, false)
    ensures r.(data := Filled(w, r).data) == Filled(w, r)
  {
    hide ReadElt, EncodeElt, FillData, Target;
    if Bare(w) {
      BareRoundTrip(w, r, rest);
    } else {
      EltRoundTrip(w, Some(r), rest);
    }
  }

  lemma {:induction false} EltsRoundTrip(ws: seq<Elt>, rs: seq<Elt>, n: nat, rest: seq<byte>)
    requires n + |ws| == |rs| && forall i :: 0 <= i < |ws| ==> Suits(ws[i], rs[n + i])
    ensures EncodeElts(ws).Some?
    ensures var r := ReadElts(EncodeElts(ws).value + rest, rs, n);
            && r.GotElts? && r.rest == rest && |r.elts| == |rs|
            && (forall i :: 0 <= i < n ==> r.elts[i] == rs[i])
            && (forall i :: 0 <= i < |ws| ==> r.elts[n + i] == Filled(ws[i], rs[n + i]))
    decreases ws
  {
    hide ReadElt, EncodeElt, Suits, Filled;
    if ws == [] {
      assert [] + rest == rest;
    } else {
      var now := rs[n := Filled(ws[0], rs[n])];
      forall i | 0 <= i < |ws[1..]|
        ensures Suits(ws[1..][i], now[n + 1 + i])
      {
        assert ws[1..][i] == ws[i + 1] && now[n + 1 + i] == rs[n + (i + 1)];
      }
      EltsRoundTrip(ws[1..], now, n + 1, rest);
      var tail := EncodeElts(ws[1..]).value + rest;
      OneRoundTrip(ws[0], rs[n], tail);
      assert EncodeElts(ws).value + rest == EncodeElt(ws[0]).value + tail;
      var r := ReadElts(EncodeElts(ws).value + rest, rs, n);
      assert r == ReadElts(tail, now, n + 1);
      forall i | 0 <= i < |ws|
        ensures r.elts[n + i] == Filled(ws[i], rs[n + i])
      {
        if i > 0 {
          assert ws[1..][i - 1] == ws[i];
          assert r.elts[n + 1 + (i - 1)] == Filled(ws[1..][i - 1], now[n + 1 + (i - 1)]);
        }
      }
    }
  }

  // ----- what arrives -----

  /** Place `g` is place `d` with the first `k` bytes of `from` at its start, if it is a cell that is big enough. */
  ghost predicate Begins(from: Data, k: nat, d: Data, g: Data) {
    if from.Cell? && |from.bytes| >= k && d.Cell? && |d.bytes| >= k then
      g.Cell? && |g.bytes| == |d.bytes| && g.bytes[..k] == from.bytes[..k] && g.bytes[k..] == d.bytes[k..]
    else g == d
  }

  /** Place `g` is place `d` with as much of the string as fits, and a zero behind it. */
  ghost predicate Spells(t: seq<byte>, d: Data, g: Data) {
    if d.Cell? && |d.bytes| > 0 then
      var k := if |t| < |d.bytes| then |t| else |d.bytes| - 1;
      && g.Cell? && |g.bytes| == |d.bytes|
      && g.bytes[..k] == t[..k] && g.bytes[k] == 0 && g.bytes[k + 1..] == d.bytes[k + 1..]
    else g == d
  }

  /**
   Element `g` is element `r` after the value of `w` has come for it. A value of the same type is stored, an object or a
   mixed array in an element for either; a value of any other type is not.
   */
  ghost predicate Arrived(w: Elt, r: Elt, g: Elt)
    decreases w, 1
  {
    && g == r.(data := g.data)
    && (if r.code == w.code || (r.code == OBJECT && w.code == MIXED_ARRAY)
        || (r.code == MIXED_ARRAY && w.code == OBJECT)
        then DataArrived(w, r.data, g.data) else g.data == r.data)
  }

  ghost predicate DataArrived(w: Elt, d: Data, g: Data)
    decreases w, 0
  {
    if w.code == NUMBER then Begins(w.data, 8, d, g)
    else if w.code == BOOLEAN || w.code == INT8 then Begins(w.data, 1, d, g)
    else if w.code == INT16 then Begins(w.data, 2, d, g)
    else if w.code == INT32 then Begins(w.data, 4, d, g)
    else if w.code == STRING then Spells(Text(w), d, g)
    else if w.data.Elts? && d.Elts? && (w.code == OBJECT || w.code == MIXED_ARRAY) then
      g.Elts? && FieldsArrived(w.data.elts, d.elts, g.elts)
    else if w.data.Elts? && d.Elts? && w.code == ARRAY then
      g.Elts? && ItemsArrived(w.data.elts, 0, d.elts, g.elts)
    else g == d
  }

  /** The written fields have come one after the other, each for the first element of its name, if there is one. */
  ghost predicate FieldsArrived(ws: seq<Elt>, elts: seq<Elt>, g: seq<Elt>)
    decreases ws
  {
    if ws == [] then g == elts
    else exists mid ::
      OneArrived(ws[0], IndexOf(elts, ws[0].name), elts, mid) && FieldsArrived(ws[1..], mid, g)
  }

  /** The items of an array have come one after the other, each for the element of its index, if there is one. */
  ghost predicate ItemsArrived(ws: seq<Elt>, n: nat, elts: seq<Elt>, g: seq<Elt>)
    decreases ws
  {
    if ws == [] then g == elts
    else exists mid :: OneArrived(ws[0], n, elts, mid) && ItemsArrived(ws[1..], n + 1, mid, g)
  }

  ghost predicate OneArrived(w: Elt, n: nat, elts: seq<Elt>, mid: seq<Elt>)
    decreases w, 2
  {
    && |mid| == |elts|
    && (if n < |elts| then Arrived(w, elts[n], mid[n]) && mid == elts[n := mid[n]] else mid == elts)
  }

  lemma PutBegins(from: Data, k: nat, d: Data)
    requires from.Cell? && |from.bytes| >= k
    ensures Begins(from, k, d, Put(d, from.bytes[..k]))
  {
  }

  lemma PutSpells(t: seq<byte>, d: Data)
    ensures Spells(t, d, PutString(d, t))
  {
  }

  /** A written element arrives. */
  lemma {:induction false} FillArrives(w: Elt, r: Elt)
    requires Plain(w)
    ensures Arrived(w, r, Fill(w, r))
    decreases w, 1
  {
    hide FillData, DataArrived;
    FillDataArrives(w, r.data);
  }

  lemma FilledArrives(w: Elt, r: Elt)
    requires Suits(w, r)
    ensures Arrived(w, r, Filled(w, r))
  {
    hide Fill, FillData, Put, Begins, Target;
    if Bare(w) {
      PutBegins(w.data, if w.code == INT8 then 1 else if w.code == INT16 then 2 else 4, r.data);
    } else {
      FillArrives(w, r);
    }
  }

  lemma {:induction false} FillDataArrives(w: Elt, d: Data)
    requires Plain(w)
    ensures DataArrived(w, d, FillData(w, d))
    decreases w, 0
  {
    hide Begins, Spells, FieldsArrived, ItemsArrived, FillFields, FillItems, Put, PutString, Text;
    if w.code == NUMBER || w.code == BOOLEAN {
      var k := if w.code == NUMBER then 8 else 1;
      PutBegins(w.data, k, d);
    } else if w.code == STRING {
      PutSpells(Text(w), d);
    } else if w.data.Elts? && d.Elts? {
      if w.code == ARRAY {
        ItemsArrive(w.data.elts, 0, d.elts);
      } else if w.code == OBJECT || w.code == MIXED_ARRAY {
        FieldsArrive(w.data.elts, d.elts);
      }
    }
  }

  lemma {:induction false} FieldsArrive(ws: seq<Elt>, elts: seq<Elt>)
    requires AllPlain(ws)
    ensures FieldsArrived(ws, elts, FillFields(ws, elts))
    decreases ws
  {
    hide Fill, Arrived, IndexOf, Plain;
    if ws != [] {
      var n := IndexOf(elts, ws[0].name);
      var mid := if n < |elts| then elts[n := Fill(ws[0], elts[n])] else elts;
      if n < |elts| {
        FillArrives(ws[0], elts[n]);
      }
      FieldsArrive(ws[1..], mid);
      assert OneArrived(ws[0], n, elts, mid) && FieldsArrived(ws[1..], mid, FillFields(ws, elts));
    }
  }

  lemma {:induction false} ItemsArrive(ws: seq<Elt>, n: nat, elts: seq<Elt>)
    requires AllPlain(ws)
    ensures ItemsArrived(ws, n, elts, FillItems(ws, n, elts))
    decreases ws
  {
    hide Fill, Arrived, Plain;
    if ws != [] {
      var mid := if n < |elts| then elts[n := Fill(ws[0], elts[n])] else elts;
      if n < |elts| {
        FillArrives(ws[0], elts[n]);
      }
      ItemsArrive(ws[1..], n + 1, mid);
      assert OneArrived(ws[0], n, elts, mid) && ItemsArrived(ws[1..], n + 1, mid, FillItems(ws, n, elts));
    }
  }


  /**
   Reading undoes writing: what ngx_rtmp_amf_write makes of the elements `ws`, read into the elements `rs` from `n` on,
   leaves every value in its place and the input exactly behind the encoding.
   */
  lemma RoundTrip(ws: seq<Elt>, rs: seq<Elt>, n: nat, rest: seq<byte>)
    requires n + |ws| == |rs| && forall i :: 0 <= i < |ws| ==> Suits(ws[i], rs[n + i])
    ensures EncodeElts(ws).Some?
    ensures var r := ReadElts(EncodeElts(ws).value + rest, rs, n);
            && r.GotElts? && r.rest == rest && |r.elts| == |rs|
            && (forall i :: 0 <= i < n ==> r.elts[i] == rs[i])
            && (forall i :: 0 <= i < |ws| ==>
                  r.elts[n + i] == Filled(ws[i], rs[n + i]) && Arrived(ws[i], rs[n + i], r.elts[n + i]))
  {
    hide ReadElts, EncodeElts, Suits, Filled, Arrived;
    EltsRoundTrip(ws, rs, n, rest);
    forall i | 0 <= i < |ws|
      ensures Arrived(ws[i], rs[n + i], Filled(ws[i], rs[n + i]))
    {
      FilledArrives(ws[i], rs[n + i]);
    }
  }

  predicate DistinctNames(elts: seq<Elt>) {
    forall i, j :: 0 <= i < j < |elts| ==> elts[i].name != elts[j].name
  }

  lemma FillKeepsName(w: Elt, r: Elt)
    ensures Fill(w, r).name == r.name
  {
  }

  lemma SameNameIs(name: seq<byte>, key: seq<byte>)
    requires 0 !in name
    ensures SameName(name, key) <==> name == key
  {
    if name != [] && |name| == |key| {
      SameNameIs(name[1..], key[1..]);
      assert name == [name[0]] + name[1..] && key == [key[0]] + key[1..];
    }
  }

  /** Whatever the order of the keys on either side: a field gets the value written under its name, and only that. */
  lemma {:induction false} FilledByName(ws: seq<Elt>, elts: seq<Elt>, j: nat)
    requires DistinctNames(ws) && DistinctNames(elts) && j < |elts|
    requires forall i :: 0 <= i < |elts| ==> 0 !in elts[i].name
    ensures forall i :: 0 <= i < |ws| && ws[i].name == elts[j].name ==> FillFields(ws, elts)[j] == Fill(ws[i], elts[j])
    ensures (forall i :: 0 <= i < |ws| ==> ws[i].name != elts[j].name) ==> FillFields(ws, elts)[j] == elts[j]
    decreases ws
  {
    hide Fill, SameName;
    if ws != [] {
      var n := IndexOf(elts, ws[0].name);
      if n < |elts| {
        FillKeepsName(ws[0], elts[n]);
        SameNameIs(elts[n].name, ws[0].name);
      }
      SameNameIs(elts[j].name, ws[0].name);
      var now := if n < |elts| then elts[n := Fill(ws[0], elts[n])] else elts;
      assert forall i :: 0 <= i < |now| ==> now[i].name == elts[i].name;
      FilledByName(ws[1..], now, j);
      assert forall i :: 0 < i < |ws| ==> ws[1..][i - 1] == ws[i];
      assert ws[0].name == elts[j].name ==> n == j;
    }
  }

  lemma OneKeepsNames(w: Elt, n: nat, elts: seq<Elt>, mid: seq<Elt>)
    requires OneArrived(w, n, elts, mid)
    ensures |mid| == |elts| && forall i :: 0 <= i < |mid| ==> mid[i].name == elts[i].name
  {
    hide DataArrived;
    if n < |elts| {
      assert mid[n].name == elts[n].name;
    }
  }

  /** The same of what arrives: a field gets the value written under its name, and only that. */
  lemma {:induction false} ArrivedByName(ws: seq<Elt>, elts: seq<Elt>, g: seq<Elt>, j: nat)
    requires DistinctNames(ws) && DistinctNames(elts) && j < |elts| && FieldsArrived(ws, elts, g)
    requires forall i :: 0 <= i < |elts| ==> 0 !in elts[i].name
    ensures |g| == |elts|
    ensures forall i :: 0 <= i < |ws| && ws[i].name == elts[j].name ==> Arrived(ws[i], elts[j], g[j])
    ensures (forall i :: 0 <= i < |ws| ==> ws[i].name != elts[j].name) ==> g[j] == elts[j]
    decreases ws
  {
    hide DataArrived, SameName;
    if ws != [] {
      var n := IndexOf(elts, ws[0].name);
      var mid: seq<Elt> :| OneArrived(ws[0], n, elts, mid) && FieldsArrived(ws[1..], mid, g);
      if n < |elts| {
        SameNameIs(elts[n].name, ws[0].name);
      }
      SameNameIs(elts[j].name, ws[0].name);
      OneKeepsNames(ws[0], n, elts, mid);
      ArrivedByName(ws[1..], mid, g, j);
      assert forall i :: 0 < i < |ws| ==> ws[1..][i - 1] == ws[i];
      assert ws[0].name == elts[j].name ==> n == j;
    }
  }

  /** The first zero of a string is at `k`, its end counting as one. */
  predicate ZeroAt(s: seq<byte>, k: nat)
    requires k <= |s|
  {
    0 !in s[..k] && (k == |s| || s[k] == 0)
  }

  /** The string written is what is in its cell, as long as is said, or else up to the first zero. */
  lemma {:induction false} TextIs(e: Elt, k: nat)
    requires e.data.Cell? && k <= |e.data.bytes|
    ensures e.len % 0x1_0000 == k && k > 0 ==> Text(e) == e.data.bytes[..k]
    ensures e.len % 0x1_0000 == 0 && k < 0x1_0000 && ZeroAt(e.data.bytes, k) ==> Text(e) == e.data.bytes[..k]
  {
    var cell := e.data.bytes;
    if ZeroAt(cell, k) {
      if k == |cell| {
        NoZeroFound(cell);
        assert cell[..k] == cell;
      } else {
        ZeroFound(cell[..k], cell[k + 1..]);
        assert cell == cell[..k] + [0] + cell[k + 1..];
      }
    }
  }

  lemma NoZeroFound(s: seq<byte>)
    requires 0 !in s
    ensures UpToZero(s) == s
  {
  }

  /** A string arrives as the longest prefix that the cell holds with its zero. */
  lemma StringArrives(w: Elt, cell: seq<byte>)
    requires |cell| >= 1 && 0 !in Text(w)
    ensures var t := Text(w); var r := PutString(Cell(cell), t);
            && r.Cell? && |r.bytes| == |cell|
            && UpToZero(r.bytes) == if |t| < |cell| then t else t[..|cell| - 1]
  {
    var t := Text(w);
    var kept := if |t| < |cell| then t else t[..|cell| - 1];
    var r := PutString(Cell(cell), t);
    var tail := if |t| < |cell| then cell[|t| + 1..] else [];
    assert r.bytes == kept + [0] + tail;
    ZeroFound(kept, tail);
  }

  lemma ZeroFound(s: seq<byte>, tail: seq<byte>)
    requires 0 !in s
    ensures UpToZero(s + [0] + tail) == s
  {
    if s != [] {
      ZeroFound(s[1..], tail);
      assert (s + [0] + tail)[1..] == s[1..] + [0] + tail;
    }
  }
}
