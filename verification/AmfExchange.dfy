/** Writer and reader put together: values go over a chain of buffers and come back. */
module AmfExchange {
  import opened AmfFormat
  import opened AmfRoundTrip
  import AmfChain

  /** What one end writes, into buffers of any sizes, the other reads, element by element, to the last byte. */
  method Exchange(ws: seq<Elt>, rs: seq<Elt>, spare: seq<nat>) returns (ok: bool, got: GotElts)
    requires forall i :: 0 <= i < |spare| ==> spare[i] > 0
    requires |ws| == |rs| && forall i :: 0 <= i < |ws| ==> Suits(ws[i], rs[i])
    ensures ok ==> got.GotElts? && got.rest == [] && |got.elts| == |rs|
                   && forall i :: 0 <= i < |ws| ==>
                     got.elts[i] == Filled(ws[i], rs[i]) && Arrived(ws[i], rs[i], got.elts[i])
  {
    hide Suits, Filled, Arrived, EncodeElts, ReadElts, AmfChain.Writer.Valid, AmfChain.Reader.Valid;
    got := NoElts;
    var w := new AmfChain.Writer(spare);
    ok := w.Write(ws);
    if ok {
      RoundTrip(ws, rs, 0, []);
      var r := new AmfChain.Reader(w.bufs);
      assert [] + EncodeElts(ws).value == EncodeElts(ws).value + [];
      got := r.Read(rs);
    }
  }
}
