/**
 How long an AMF0 value is in the input. Nothing is stored here, and of the elements to read into only the flags
 matter: an element without flags is passed over as no element is.
 */
module AmfSkip {
  import opened Bytes
  import opened Wrappers
  import opened AmfFormat

  /** The bytes of a value that holds no others. */
  function Width(s: seq<byte>, code: nat): Option<nat> {
    if code == NUMBER then Some(8)
    else if code == BOOLEAN || code == INT8 then Some(1)
    else if code == INT16 then Some(2)
    else if code == INT32 then Some(4)
    else if code == STRING then if |s| < 2 then None else Some(2 + Be16(s, 0))
    else if code == NULL || code == ARRAY_NULL || code == END then Some(0)
    else None
  }

  /** The elements that a value of type `code` goes to when it is read for element `e`. */
  function Places(e: Option<Elt>, code: nat): seq<Elt> {
    if e.Some? && !e.value.context && Compatible(e.value.code % 0x100, code) then FieldsOf(e.value.data) else []
  }

  /** What is behind one element, if all of it is there. */
  function Behind(s: seq<byte>, e: Option<Elt>): (r: Option<seq<byte>>)
    ensures r.Some? ==> |r.value| <= |s| && (e.None? ==> |r.value| < |s|)
    decreases |s|, 3
  {
    if e.Some? && e.value.typeless then
      if e.value.optional || e.value.context then None else BehindValue(s, e.value.code, FieldsOf(e.value.data))
    else if s == [] then if e.Some? && e.value.optional then Some(s) else None
    else BehindValue(s[1..], s[0], Places(e, s[0]))
  }

  function BehindValue(s: seq<byte>, code: nat, elts: seq<Elt>): (r: Option<seq<byte>>)
    ensures r.Some? ==> |r.value| <= |s|
    decreases |s|, 2
  {
    if code == OBJECT then BehindFields(s, elts)
    else if code == MIXED_ARRAY then if |s| < 4 then None else BehindFields(s[4..], elts)
    else if code == ARRAY then if |s| < 4 then None else BehindItems(s[4..], elts, 0, Be32(s, 0))
    else if code == VARIANT then
      if |s| < 1 then None else BehindValue(s[1..], s[0], VariantPlaces(elts, s[0]))
    else
      var w := Width(s, code);
      if w.None? || |s| < w.value then None else Some(s[w.value..])
  }

  function VariantPlaces(elts: seq<Elt>, code: nat): seq<Elt> {
    if VariantOf(elts, code) < |elts| then FieldsOf(elts[VariantOf(elts, code)].data) else []
  }

  function BehindFields(s: seq<byte>, elts: seq<Elt>): (r: Option<seq<byte>>)
    ensures r.Some? ==> |r.value| <= |s|
    decreases |s|, 1
  {
    if |s| < 2 then Some(s)
    else if Be16(s, 0) == 0 then if |s| < 3 || s[2] as nat != END then None else Some(s[3..])
    else if !HasKey(s) then None
    else
      var rest := Behind(ValueOf(s), Selected(elts, IndexOf(elts, KeyOf(s))));
      if rest.None? then None else BehindFields(rest.value, elts)
  }

  function BehindItems(s: seq<byte>, elts: seq<Elt>, n: nat, len: nat): (r: Option<seq<byte>>)
    ensures r.Some? ==> |r.value| <= |s|
    decreases |s|, 4, len - n
  {
    if n >= len then Some(s)
    else
      var rest := Behind(s, Selected(elts, n));
      if rest.None? then None else BehindItems(rest.value, elts, n + 1, len)
  }

  predicate HasKey(s: seq<byte>) {
    |s| >= 2 && 0 < Be16(s, 0) <= |s| - 2
  }

  function KeyOf(s: seq<byte>): seq<byte>
    requires HasKey(s)
  {
    s[2..2 + Be16(s, 0)]
  }

  function ValueOf(s: seq<byte>): (r: seq<byte>)
    requires HasKey(s)
    ensures |r| < |s|
  {
    s[2 + Be16(s, 0)..]
  }

  // ----- storing changes nothing that matters -----

  /** The same but for what has been stored: `a` may have been read into, `b` not. */
  predicate Alike(a: Elt, b: Elt)
    decreases a, 1
  {
    && a.code == b.code && a.optional == b.optional && a.typeless == b.typeless && a.context == b.context
    && a.name == b.name
    && (a.context || if a.data.Elts? then AllAlike(a.data.elts, FieldsOf(b.data)) else FieldsOf(b.data) == [])
  }

  predicate AllAlike(a: seq<Elt>, b: seq<Elt>)
    decreases a, 0
  {
    |a| == |b| && forall i :: 0 <= i < |a| ==> Alike(a[i], b[i])
  }

  predicate SameOrNone(a: Option<Elt>, b: Option<Elt>) {
    if a.Some? then b.Some? && Alike(a.value, b.value) else b.None?
  }

  lemma {:induction false} AlikeItself(a: Elt)
    ensures Alike(a, a)
    decreases a, 1
  {
    if a.data.Elts? {
      AllAlikeThemselves(a.data.elts);
    }
  }

  lemma {:induction false} AllAlikeThemselves(a: seq<Elt>)
    ensures AllAlike(a, a)
    decreases a, 0
  {
    forall i | 0 <= i < |a| ensures Alike(a[i], a[i]) {
      AlikeItself(a[i]);
    }
  }

  lemma {:induction false} IndexAlike(a: seq<Elt>, b: seq<Elt>, key: seq<byte>)
    requires AllAlike(a, b)
    ensures IndexOf(a, key) == IndexOf(b, key)
    decreases |a|
  {
    hide SameName, Alike;
    if a != [] {
      assert a[0].name == b[0].name by { AlikeName(a[0], b[0]); }
      forall i | 0 <= i < |a[1..]| ensures Alike(a[1..][i], b[1..][i]) {
        assert Alike(a[i + 1], b[i + 1]);
      }
      IndexAlike(a[1..], b[1..], key);
    }
  }

  lemma AlikeName(a: Elt, b: Elt)
    requires Alike(a, b)
    ensures a.name == b.name && a.code == b.code
    ensures a.optional == b.optional && a.typeless == b.typeless && a.context == b.context
    ensures !a.context ==> AllAlike(FieldsOf(a.data), FieldsOf(b.data))
  {
  }

  lemma {:induction false} VariantAlike(a: seq<Elt>, b: seq<Elt>, code: nat)
    requires AllAlike(a, b)
    ensures VariantOf(a, code) == VariantOf(b, code)
    ensures VariantOf(a, code) < |a| ==> !a[VariantOf(a, code)].context
    decreases |a|
  {
    hide Alike;
    if a != [] {
      AlikeName(a[0], b[0]);
      forall i | 0 <= i < |a[1..]| ensures Alike(a[1..][i], b[1..][i]) {
        assert Alike(a[i + 1], b[i + 1]);
      }
      VariantAlike(a[1..], b[1..], code);
    }
  }

  lemma StoredAlike(a: seq<Elt>, b: seq<Elt>, n: nat, d: Data)
    requires AllAlike(a, b)
    requires n < |a| ==> Alike(a[n].(data := d), b[n])
    ensures AllAlike(Stored(a, n, d), b) && SameOrNone(Selected(a, n), Selected(b, n))
  {
    hide Alike;
  }

  // ----- a read goes exactly so far -----

  /** An element is read exactly when it is whole, and what is left is what is behind it, whatever is stored where. */
  lemma {:induction false} BehindIs(s: seq<byte>, e: Option<Elt>, b: Option<Elt>)
    requires SameOrNone(e, b)
    ensures var r := ReadElt(s, e); var rest := Behind(s, b);
            && (r.Got? <==> rest.Some?)
            && (r.Got? ==> r.rest == rest.value && (e.Some? ==> Alike(e.value.(data := r.data), b.value)))
    decreases |s|, 3
  {
    hide ReadValue, BehindValue, Alike, AllAlike;
    if e.Some? {
      AlikeName(e.value, b.value);
    }
    NoneAlike();
    if e.Some? && e.value.typeless {
      if !e.value.optional && !e.value.context {
        ValueBehind(s, e.value.code, e.value.data, FieldsOf(b.value.data));
        Restored(e.value, b.value, ReadElt(s, e));
      }
    } else if s == [] {
      if e.Some? && e.value.optional {
        Restored(e.value, b.value, ReadElt(s, e));
      }
    } else {
      var fits := e.Some? && !e.value.context && Compatible(e.value.code % 0x100, s[0]);
      ValueBehind(s[1..], s[0], if fits then e.value.data else Null, Places(b, s[0]));
      if e.Some? {
        Restored(e.value, b.value, ReadElt(s, e));
      }
    }
  }

  lemma NoneAlike()
    ensures AllAlike([], []) && FieldsOf(Null) == []
  {
  }

  /** An element with the fields that a read has left it, or with what it had. */
  lemma Restored(a: Elt, b: Elt, r: Got)
    requires Alike(a, b)
    ensures r.Got? && (a.context || r.data == a.data || AllAlike(FieldsOf(r.data), FieldsOf(b.data))) ==>
      Alike(a.(data := r.data), b)
  {
  }

  lemma {:induction false} ValueBehind(s: seq<byte>, code: nat, d: Data, b: seq<Elt>)
    requires AllAlike(FieldsOf(d), b)
    ensures var r := ReadValue(s, code, d); var rest := BehindValue(s, code, b);
            && (r.Got? <==> rest.Some?) && (r.Got? ==> r.rest == rest.value && AllAlike(FieldsOf(r.data), b))
    decreases |s|, 2
  {
    hide ReadFields, ReadItems, ReadVariant, BehindFields, BehindItems, AllAlike, Be32, Put, PutString, Reversed;
    hide FieldsOf, WithFields, VariantPlaces;
    if code == OBJECT {
      FieldsBehind(s, FieldsOf(d), b);
      FieldsStay(d, ReadFields(s, FieldsOf(d)), b);
    } else if code == MIXED_ARRAY {
      if |s| >= 4 {
        FieldsBehind(s[4..], FieldsOf(d), b);
        FieldsStay(d, ReadFields(s[4..], FieldsOf(d)), b);
      }
    } else if code == ARRAY {
      if |s| >= 4 {
        ItemsBehind(s[4..], FieldsOf(d), b, 0, Be32(s, 0));
        FieldsStay(d, ReadItems(s[4..], FieldsOf(d), 0, Be32(s, 0)), b);
      }
    } else if code == VARIANT {
      if s == [] {
        NoVariant(FieldsOf(d));
      } else {
        VariantBehind(s, FieldsOf(d), b);
        FieldsStay(d, ReadVariant(s, FieldsOf(d)), b);
      }
    } else {
      CellBehind(s, code, d);
    }
  }

  predicate HoldsOthers(code: nat) {
    code == OBJECT || code == MIXED_ARRAY || code == ARRAY || code == VARIANT
  }

  /** A value that holds no others goes to a cell. */
  lemma CellBehind(s: seq<byte>, code: nat, d: Data)
    requires !HoldsOthers(code)
    ensures var r := ReadValue(s, code, d); var w := Width(s, code);
            && (r.Got? <==> w.Some? && |s| >= w.value) && (r.Got? ==> r.rest == s[w.value..])
            && (r.Got? ==> FieldsOf(r.data) == FieldsOf(d))
  {
    hide Be16, Reversed, Put, PutString, FieldsOf;
    CellsStay(d);
  }

  /** Storing into a cell leaves the elements, of which a cell has none. */
  lemma CellsStay(d: Data)
    ensures forall t: seq<byte> :: FieldsOf(Put(d, t)) == FieldsOf(d)
    ensures forall t: seq<byte> :: FieldsOf(PutString(d, t)) == FieldsOf(d)
  {
  }

  lemma FieldsStay(d: Data, r: GotElts, b: seq<Elt>)
    requires AllAlike(FieldsOf(d), b) && (r.GotElts? ==> AllAlike(r.elts, b))
    ensures r.GotElts? ==> AllAlike(FieldsOf(WithFields(d, r.elts)), b)
  {
  }

  lemma NoVariant(a: seq<Elt>)
    ensures ReadVariant([], a) == NoElts
  {
  }

  lemma {:induction false} VariantBehind(s: seq<byte>, a: seq<Elt>, b: seq<Elt>)
    requires AllAlike(a, b) && |s| >= 1
    ensures var r := ReadVariant(s, a); var rest := BehindValue(s[1..], s[0], VariantPlaces(b, s[0]));
            && (r.GotElts? <==> rest.Some?) && (r.GotElts? ==> r.rest == rest.value && AllAlike(r.elts, b))
    decreases |s|, 1
  {
    hide ReadValue, BehindValue, Alike;
    VariantAlike(a, b, s[0]);
    NoneAlike();
    var n := VariantOf(a, s[0]);
    var d := if n < |a| then a[n].data else Null;
    if n < |a| {
      AlikeName(a[n], b[n]);
    }
    ValueBehind(s[1..], s[0], d, VariantPlaces(b, s[0]));
    var r := ReadValue(s[1..], s[0], d);
    if r.Got? {
      if n < |a| {
        Restored(a[n], b[n], r);
      }
      StoredAlike(a, b, n, r.data);
    }
  }

  lemma {:induction false} FieldsBehind(s: seq<byte>, a: seq<Elt>, b: seq<Elt>)
    requires AllAlike(a, b)
    ensures var r := ReadFields(s, a); var rest := BehindFields(s, b);
            && (r.GotElts? <==> rest.Some?) && (r.GotElts? ==> r.rest == rest.value && AllAlike(r.elts, b))
    decreases |s|, 1
  {
    hide ReadElt, Behind, Alike, Be16, IndexOf;
    if HasKey(s) {
      IndexAlike(a, b, KeyOf(s));
      var n := IndexOf(a, KeyOf(s));
      BehindIs(ValueOf(s), Selected(a, n), Selected(b, n));
      var r := ReadElt(ValueOf(s), Selected(a, n));
      if r.Got? {
        StoredAlike(a, b, n, r.data);
        FieldsBehind(r.rest, Stored(a, n, r.data), b);
      }
    }
  }

  lemma {:induction false} ItemsBehind(s: seq<byte>, a: seq<Elt>, b: seq<Elt>, n: nat, len: nat)
    requires AllAlike(a, b)
    ensures var r := ReadItems(s, a, n, len); var rest := BehindItems(s, b, n, len);
            && (r.GotElts? <==> rest.Some?) && (r.GotElts? ==> r.rest == rest.value && AllAlike(r.elts, b))
    decreases |s|, 4, len - n
  {
    hide ReadElt, Behind, Alike;
    if n < len {
      BehindIs(s, Selected(a, n), Selected(b, n));
      var r := ReadElt(s, Selected(a, n));
      if r.Got? {
        StoredAlike(a, b, n, r.data);
        ItemsBehind(r.rest, Stored(a, n, r.data), b, n + 1, len);
      }
    }
  }

  // ----- elements without flags -----

  /** Each value has its type in the input, and none may be missing at the end. */
  predicate Ordinary(e: Elt)
    decreases e, 1
  {
    !e.typeless && !e.optional && (e.data.Elts? ==> AllOrdinary(e.data.elts))
  }

  predicate AllOrdinary(elts: seq<Elt>)
    decreases elts, 0
  {
    forall i :: 0 <= i < |elts| ==> Ordinary(elts[i])
  }

  /** How far such an element goes does not depend on it: it is passed over as for no element. */
  lemma {:induction false} OrdinaryBehind(s: seq<byte>, e: Elt)
    requires Ordinary(e)
    ensures Behind(s, Some(e)) == Behind(s, None)
    decreases |s|, 3
  {
    hide BehindValue;
    if s != [] {
      OrdinaryValue(s[1..], s[0], Places(Some(e), s[0]));
    }
  }

  lemma {:induction false} OrdinaryValue(s: seq<byte>, code: nat, elts: seq<Elt>)
    requires AllOrdinary(elts)
    ensures BehindValue(s, code, elts) == BehindValue(s, code, [])
    decreases |s|, 2
  {
    hide BehindFields, BehindItems, Be32, Width;
    if code == OBJECT {
      OrdinaryFields(s, elts);
    } else if code == MIXED_ARRAY {
      if |s| >= 4 {
        OrdinaryFields(s[4..], elts);
      }
    } else if code == ARRAY {
      if |s| >= 4 {
        OrdinaryItems(s[4..], elts, 0, Be32(s, 0));
      }
    } else if code == VARIANT && |s| >= 1 {
      OrdinaryValue(s[1..], s[0], VariantPlaces(elts, s[0]));
    }
  }

  lemma {:induction false} OrdinaryFields(s: seq<byte>, elts: seq<Elt>)
    requires AllOrdinary(elts)
    ensures BehindFields(s, elts) == BehindFields(s, [])
    decreases |s|, 1
  {
    hide Behind, Be16, IndexOf;
    if HasKey(s) {
      var n := IndexOf(elts, KeyOf(s));
      if n < |elts| {
        OrdinaryBehind(ValueOf(s), elts[n]);
      }
      var rest := Behind(ValueOf(s), None);
      if rest.Some? {
        OrdinaryFields(rest.value, elts);
      }
    }
  }

  lemma {:induction false} OrdinaryItems(s: seq<byte>, elts: seq<Elt>, n: nat, len: nat)
    requires AllOrdinary(elts)
    ensures BehindItems(s, elts, n, len) == BehindItems(s, [], n, len)
    decreases |s|, 4, len - n
  {
    hide Behind;
    if n < len {
      if n < |elts| {
        OrdinaryBehind(s, elts[n]);
      }
      var rest := Behind(s, None);
      if rest.Some? {
        OrdinaryItems(rest.value, elts, n + 1, len);
      }
    }
  }
}
