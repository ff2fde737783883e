/**
 Where a read looks at the flags of an element that there is not: exactly at an input that ends before the value of a
 key that no element has, or of an item beyond the elements of its array, however deep inside other values. The way to
 such a place is told by the lengths of what lies before it, without reading any of that.
 */
module AmfCrash {
  import opened Bytes
  import opened Wrappers
  import opened AmfFormat
  import opened AmfSkip

  /** The way to such a value: by the number of the field or of the item, at each level. */
  datatype Path = Here | InField(n: nat, rest: Path) | InItem(n: nat, rest: Path) | InVariant(rest: Path)

  /** What is behind the first `n` fields of an object. */
  function FieldAt(s: seq<byte>, elts: seq<Elt>, n: nat): Option<seq<byte>>
    decreases n
  {
    if n == 0 then Some(s)
    else if !HasKey(s) then None
    else
      var rest := Behind(ValueOf(s), Selected(elts, IndexOf(elts, KeyOf(s))));
      if rest.None? then None else FieldAt(rest.value, elts, n - 1)
  }

  /** What is behind `n` items of a strict array, of which the first is item `m`. */
  function ItemAt(s: seq<byte>, elts: seq<Elt>, m: nat, n: nat): Option<seq<byte>>
    decreases n
  {
    if n == 0 then Some(s)
    else
      var rest := Behind(s, Selected(elts, m));
      if rest.None? then None else ItemAt(rest.value, elts, m + 1, n - 1)
  }

  /** Reading `s` for element `e` comes by path `p` to the end of the input, for no element. */
  predicate Reaches(s: seq<byte>, e: Option<Elt>, p: Path)
    decreases p, 1
  {
    if p.Here? then s == [] && e.None?
    else if e.Some? && e.value.typeless then
      !e.value.optional && !e.value.context && ReachesIn(s, e.value.code, FieldsOf(e.value.data), p)
    else |s| > 0 && ReachesIn(s[1..], s[0], Places(e, s[0]), p)
  }

  predicate ReachesIn(s: seq<byte>, code: nat, elts: seq<Elt>, p: Path)
    decreases p, 0
  {
    match p
    case Here => false
    case InField(n, q) =>
      || (code == OBJECT && ReachesField(s, elts, n, q))
      || (code == MIXED_ARRAY && |s| >= 4 && ReachesField(s[4..], elts, n, q))
    case InItem(n, q) =>
      code == ARRAY && |s| >= 4 && n < Be32(s, 0) && ReachesItem(s[4..], elts, 0, n, q)
    case InVariant(q) =>
      code == VARIANT && |s| > 0 && ReachesIn(s[1..], s[0], VariantPlaces(elts, s[0]), q)
  }

  predicate ReachesField(s: seq<byte>, elts: seq<Elt>, n: nat, q: Path)
    decreases q, 2
  {
    var at := FieldAt(s, elts, n);
    && at.Some? && HasKey(at.value)
    && Reaches(ValueOf(at.value), Selected(elts, IndexOf(elts, KeyOf(at.value))), q)
  }

  predicate ReachesItem(s: seq<byte>, elts: seq<Elt>, m: nat, n: nat, q: Path)
    decreases q, 2
  {
    var at := ItemAt(s, elts, m, n);
    at.Some? && Reaches(at.value, Selected(elts, m + n), q)
  }

  /** The crash exactly: there is a way to the end of the input for no element. */
  lemma CrashExact(s: seq<byte>, e: Option<Elt>)
    ensures ReadElt(s, e).Crashed? <==> exists p :: Reaches(s, e, p)
  {
    ItselfOrNone(e);
    if ReadElt(s, e).Crashed? {
      var p := WayIn(s, e, e);
    }
    forall p | Reaches(s, e, p) ensures ReadElt(s, e).Crashed? {
      WayCrashes(s, e, e, p);
    }
  }

  lemma ItselfOrNone(e: Option<Elt>)
    ensures SameOrNone(e, e)
  {
    if e.Some? {
      AlikeItself(e.value);
    }
  }

  // In what follows the elements `b` are those of the call, and `e` or `a` what has become of them so far.

  // ----- a way there crashes -----

  lemma {:induction false} WayCrashes(s: seq<byte>, e: Option<Elt>, b: Option<Elt>, p: Path)
    requires Reaches(s, b, p) && SameOrNone(e, b)
    ensures ReadElt(s, e).Crashed?
    decreases p, 1
  {
    hide ReadValue, ReachesIn, Alike, AllAlike;
    if e.Some? {
      AlikeName(e.value, b.value);
    }
    NoneAlike();
    if !p.Here? {
      if e.Some? && e.value.typeless {
        WayInCrashes(s, e.value.code, e.value.data, FieldsOf(b.value.data), p);
      } else {
        WayInCrashes(s[1..], s[0], PlaceOf(e, s[0]), Places(b, s[0]), p);
      }
    }
  }

  /** Where a value of type `code` goes that is read for element `e`. */
  function PlaceOf(e: Option<Elt>, code: nat): Data {
    if e.Some? && !e.value.context && Compatible(e.value.code % 0x100, code) then e.value.data else Null
  }

  lemma {:induction false} WayInCrashes(s: seq<byte>, code: nat, d: Data, b: seq<Elt>, p: Path)
    requires ReachesIn(s, code, b, p) && AllAlike(FieldsOf(d), b)
    ensures ReadValue(s, code, d).Crashed?
    decreases p, 0
  {
    hide ReachesField, ReachesItem, ReadFields, ReadItems, Be16, Be32, Alike, VariantPlaces;
    match p
    case InField(n, q) =>
      FieldCrashes(if code == OBJECT then s else s[4..], FieldsOf(d), b, n, q);
    case InItem(n, q) =>
      ItemCrashes(s[4..], FieldsOf(d), b, 0, n, Be32(s, 0), q);
    case InVariant(q) =>
      VariantData(FieldsOf(d), b, s[0]);
      WayInCrashes(s[1..], s[0], VariantPlace(FieldsOf(d), s[0]), VariantPlaces(b, s[0]), q);
  }

  /** Where a variant of that type goes. */
  function VariantPlace(elts: seq<Elt>, code: nat): Data {
    if VariantOf(elts, code) < |elts| then elts[VariantOf(elts, code)].data else Null
  }

  lemma VariantData(a: seq<Elt>, b: seq<Elt>, code: nat)
    requires AllAlike(a, b)
    ensures AllAlike(FieldsOf(VariantPlace(a, code)), VariantPlaces(b, code))
  {
    hide Alike;
    VariantAlike(a, b, code);
    NoneAlike();
    var n := VariantOf(a, code);
    if n < |a| {
      AlikeName(a[n], b[n]);
    }
  }

  lemma {:induction false} FieldCrashes(s: seq<byte>, a: seq<Elt>, b: seq<Elt>, n: nat, q: Path)
    requires ReachesField(s, b, n, q) && AllAlike(a, b)
    ensures ReadFields(s, a).CrashedElts?
    decreases q, 2, n
  {
    hide ReadElt, Reaches, IndexOf, Be16, Behind, Alike;
    IndexAlike(a, b, KeyOf(s));
    var i := IndexOf(a, KeyOf(s));
    if n == 0 {
      WayCrashes(ValueOf(s), Selected(a, i), Selected(b, i), q);
    } else {
      BehindIs(ValueOf(s), Selected(a, i), Selected(b, i));
      var r := ReadElt(ValueOf(s), Selected(a, i));
      StoredAlike(a, b, i, r.data);
      FieldCrashes(r.rest, Stored(a, i, r.data), b, n - 1, q);
    }
  }

  lemma {:induction false} ItemCrashes(s: seq<byte>, a: seq<Elt>, b: seq<Elt>, m: nat, n: nat, len: nat, q: Path)
    requires ReachesItem(s, b, m, n, q) && m + n < len && AllAlike(a, b)
    ensures ReadItems(s, a, m, len).CrashedElts?
    decreases q, 2, n
  {
    hide ReadElt, Reaches, Behind, Alike;
    if n == 0 {
      WayCrashes(s, Selected(a, m), Selected(b, m), q);
    } else {
      BehindIs(s, Selected(a, m), Selected(b, m));
      var r := ReadElt(s, Selected(a, m));
      StoredAlike(a, b, m, r.data);
      ItemCrashes(r.rest, Stored(a, m, r.data), b, m + 1, n - 1, len, q);
    }
  }

  // ----- a crash has a way there -----

  lemma {:induction false} WayIn(s: seq<byte>, e: Option<Elt>, b: Option<Elt>) returns (p: Path)
    requires ReadElt(s, e).Crashed? && SameOrNone(e, b)
    ensures Reaches(s, b, p)
    decreases |s|, 3
  {
    hide ReadValue, ReachesIn, Alike, AllAlike;
    if e.Some? {
      AlikeName(e.value, b.value);
    }
    NoneAlike();
    if s == [] && e.None? {
      p := Here;
    } else if e.Some? && e.value.typeless {
      p := WayInValue(s, e.value.code, e.value.data, FieldsOf(b.value.data));
    } else {
      p := WayInValue(s[1..], s[0], PlaceOf(e, s[0]), Places(b, s[0]));
    }
  }

  lemma {:induction false} WayInValue(s: seq<byte>, code: nat, d: Data, b: seq<Elt>) returns (p: Path)
    requires ReadValue(s, code, d).Crashed? && AllAlike(FieldsOf(d), b)
    ensures ReachesIn(s, code, b, p) && !p.Here?
    decreases |s|, 2
  {
    hide ReachesField, ReachesItem, ReadFields, ReadItems, Be16, Be32, Alike, VariantPlaces;
    if code == OBJECT || code == MIXED_ARRAY {
      var n, q := WayInFields(if code == OBJECT then s else s[4..], FieldsOf(d), b);
      p := InField(n, q);
    } else if code == ARRAY {
      var n, q := WayInItems(s[4..], FieldsOf(d), b, 0, Be32(s, 0));
      p := InItem(n, q);
    } else {
      VariantData(FieldsOf(d), b, s[0]);
      var q := WayInValue(s[1..], s[0], VariantPlace(FieldsOf(d), s[0]), VariantPlaces(b, s[0]));
      p := InVariant(q);
    }
  }

  lemma {:induction false} WayInFields(s: seq<byte>, a: seq<Elt>, b: seq<Elt>) returns (n: nat, q: Path)
    requires ReadFields(s, a).CrashedElts? && AllAlike(a, b)
    ensures ReachesField(s, b, n, q)
    decreases |s|, 1
  {
    hide ReadElt, Reaches, IndexOf, Be16, Behind, Alike;
    assert HasKey(s);
    IndexAlike(a, b, KeyOf(s));
    var i := IndexOf(a, KeyOf(s));
    BehindIs(ValueOf(s), Selected(a, i), Selected(b, i));
    var r := ReadElt(ValueOf(s), Selected(a, i));
    if r.Got? {
      StoredAlike(a, b, i, r.data);
      n, q := WayInFields(r.rest, Stored(a, i, r.data), b);
      n := n + 1;
    } else {
      q := WayIn(ValueOf(s), Selected(a, i), Selected(b, i));
      n := 0;
    }
  }

  lemma {:induction false} WayInItems(s: seq<byte>, a: seq<Elt>, b: seq<Elt>, m: nat, len: nat)
    returns (n: nat, q: Path)
    requires ReadItems(s, a, m, len).CrashedElts? && AllAlike(a, b)
    ensures m + n < len && ReachesItem(s, b, m, n, q)
    decreases |s|, 4, len - m
  {
    hide ReadElt, Reaches, Behind, Alike;
    BehindIs(s, Selected(a, m), Selected(b, m));
    var r := ReadElt(s, Selected(a, m));
    if r.Got? {
      StoredAlike(a, b, m, r.data);
      n, q := WayInItems(r.rest, Stored(a, m, r.data), b, m + 1, len);
      n := n + 1;
    } else {
      q := WayIn(s, Selected(a, m), Selected(b, m));
      n := 0;
    }
  }

  // ----- a whole call -----

  /** The element ends the call without an error: an end mark is there, or nothing where it may be missing. */
  predicate Stops(s: seq<byte>, e: Elt) {
    if e.typeless then e.code == END else s == [] || s[0] as nat == END
  }

  /** What is behind the first `k` elements of a call, none of which ends it. */
  function EltAt(s: seq<byte>, elts: seq<Elt>, k: nat): Option<seq<byte>>
    decreases k
  {
    if k == 0 then Some(s)
    else if elts == [] then None
    else
      var rest := Behind(s, Some(elts[0]));
      if rest.None? || Stops(s, elts[0]) then None else EltAt(rest.value, elts[1..], k - 1)
  }

  predicate ReachesElt(s: seq<byte>, elts: seq<Elt>, k: nat, p: Path) {
    k < |elts| && EltAt(s, elts, k).Some? && Reaches(EltAt(s, elts, k).value, Some(elts[k]), p)
  }

  /** A call crashes exactly when one of its elements has such a way, none of those before it ending the call. */
  lemma ReadCrashExact(s: seq<byte>, elts: seq<Elt>, n: nat)
    requires n <= |elts|
    ensures ReadElts(s, elts, n).CrashedElts? <==> exists k, p :: ReachesElt(s, elts[n..], k, p)
  {
    if ReadElts(s, elts, n).CrashedElts? {
      var k, p := WayInElts(s, elts, n);
    }
    forall k, p | ReachesElt(s, elts[n..], k, p) ensures ReadElts(s, elts, n).CrashedElts? {
      EltCrashes(s, elts, n, k, p);
    }
  }

  /** An element of a call that is read: the ones after it are as they were. */
  lemma EltPassed(s: seq<byte>, elts: seq<Elt>, n: nat)
    requires n < |elts|
    ensures elts[n..][0] == elts[n] && elts[n..][1..] == elts[n + 1..]
    ensures var r := ReadElt(s, Some(elts[n]));
            && (r.Got? <==> Behind(s, Some(elts[n])).Some?)
            && (r.Got? ==> r.rest == Behind(s, Some(elts[n])).value && (r.stop <==> Stops(s, elts[n]))
                           && Stored(elts, n, r.data)[n + 1..] == elts[n + 1..])
  {
    ItselfOrNone(Some(elts[n]));
    BehindIs(s, Some(elts[n]), Some(elts[n]));
    StopIs(s, elts[n]);
  }

  lemma StopIs(s: seq<byte>, e: Elt)
    ensures ReadElt(s, Some(e)).Got? ==> (ReadElt(s, Some(e)).stop <==> Stops(s, e))
  {
    hide ReadFields, ReadItems, ReadVariant, Be16, Be32;
  }

  lemma {:induction false} EltCrashes(s: seq<byte>, elts: seq<Elt>, n: nat, k: nat, p: Path)
    requires n <= |elts| && ReachesElt(s, elts[n..], k, p)
    ensures ReadElts(s, elts, n).CrashedElts?
    decreases k
  {
    hide ReadElt, Reaches, Behind, Stops;
    EltPassed(s, elts, n);
    if k == 0 {
      ItselfOrNone(Some(elts[n]));
      WayCrashes(s, Some(elts[n]), Some(elts[n]), p);
    } else {
      var r := ReadElt(s, Some(elts[n]));
      EltCrashes(r.rest, Stored(elts, n, r.data), n + 1, k - 1, p);
    }
  }

  lemma {:induction false} WayInElts(s: seq<byte>, elts: seq<Elt>, n: nat) returns (k: nat, p: Path)
    requires n <= |elts| && ReadElts(s, elts, n).CrashedElts?
    ensures ReachesElt(s, elts[n..], k, p)
    decreases |elts| - n
  {
    hide ReadElt, Reaches, Behind, Stops;
    EltPassed(s, elts, n);
    var r := ReadElt(s, Some(elts[n]));
    if r.Got? {
      k, p := WayInElts(r.rest, Stored(elts, n, r.data), n + 1);
      k := k + 1;
    } else {
      ItselfOrNone(Some(elts[n]));
      p := WayIn(s, Some(elts[n]), Some(elts[n]));
      k := 0;
    }
  }

  // ----- two inputs -----

  /** An object that ends behind a key that no element has. */
  lemma UnknownKeyExample()
    ensures ReadFields([0, 1, 0x78], []) == CrashedElts && Reaches([3, 0, 1, 0x78], None, InField(0, Here))
  {
    var s: seq<byte> := [0, 1, 0x78];
    assert Be16(s, 0) == 1 && s[3..] == [];
    assert [3, 0, 1, 0x78][1..] == s;
    assert FieldAt(s, [], 0) == Some(s);
    assert ReachesField(s, [], 0, Here);
  }

  /** A strict array of one item that ends before it, read into no elements. */
  lemma ShortArrayExample()
    ensures ReadItems([], [], 0, 1) == CrashedElts && Reaches([0x0a, 0, 0, 0, 1], None, InItem(0, Here))
  {
    var s: seq<byte> := [0, 0, 0, 1];
    assert [0x0a, 0, 0, 0, 1][1..] == s && s[4..] == [] && Be32(s, 0) == 1;
    assert ItemAt([], [], 0, 0) == Some([]);
    assert ReachesItem([], [], 0, 0, Here);
  }
}
