/** FLV files (Annex E.4 of the FLV 10.1 specification) as the recorder lays them out. */
module FlvFormat {
  import opened Bytes

  const AUDIO := 8
  const VIDEO := 9
  const TAG_HEADER := 11
  const DATA_OFFSET := 13

  datatype Tag = Tag(kind: byte, timestamp: u32, body: seq<byte>)

  predicate TagOk(t: Tag) {
    |t.body| < U24
  }

  predicate AllOk(tags: seq<Tag>) {
    forall i :: 0 <= i < |tags| ==> TagOk(tags[i])
  }

  /** The file header, whose fifth byte tells the media in the file, and the size of the tag before the first. */
  function Header(media: byte): (s: seq<byte>)
    ensures |s| == DATA_OFFSET
  {
    [0x46, 0x4c, 0x56, 0x01, media, 0, 0, 0, 0x09, 0, 0, 0, 0]
  }

  /** The header of a tag: its type, length, the timestamp with its highest byte last, and no stream id. */
  function TagHeader(t: Tag): (s: seq<byte>)
    requires TagOk(t)
    ensures |s| == TAG_HEADER
  {
    [t.kind] + PutBe24(|t.body|) + PutBe24(t.timestamp % U24) + [t.timestamp / U24] + [0, 0, 0]
  }

  /** A tag and the size of it. */
  function EncodeTag(t: Tag): (s: seq<byte>)
    requires TagOk(t)
    ensures |s| == TAG_HEADER + |t.body| + 4
  {
    TagHeader(t) + t.body + PutBe32(TAG_HEADER + |t.body|)
  }

  function EncodeTags(tags: seq<Tag>): seq<byte>
    requires AllOk(tags)
  {
    if tags == [] then [] else EncodeTags(tags[..|tags| - 1]) + EncodeTag(tags[|tags| - 1])
  }

  /** What a recorded file is: a header, and then nothing but the tags. */
  ghost predicate Recorded(file: seq<byte>, tags: seq<Tag>) {
    && AllOk(tags) && |file| >= DATA_OFFSET && file[..DATA_OFFSET] == Header(file[4])
    && file[DATA_OFFSET..] == EncodeTags(tags)
  }

  /** Where tag `i` starts. */
  function OffsetOf(tags: seq<Tag>, i: nat): nat
    requires AllOk(tags) && i <= |tags|
  {
    DATA_OFFSET + |EncodeTags(tags[..i])|
  }

  lemma {:induction false} TagsSplit(tags: seq<Tag>, i: nat)
    requires AllOk(tags) && i < |tags|
    ensures EncodeTags(tags[..i]) + EncodeTag(tags[i]) <= EncodeTags(tags)
    decreases |tags|
  {
    hide EncodeTag;
    var n := |tags| - 1;
    if i == n {
      assert tags[..n] + [tags[n]] == tags;
    } else {
      TagsSplit(tags[..n], i);
      assert tags[..n][..i] == tags[..i];
    }
  }

  lemma OffsetStep(tags: seq<Tag>, i: nat)
    requires AllOk(tags) && i < |tags|
    ensures OffsetOf(tags, i + 1) == OffsetOf(tags, i) + TAG_HEADER + |tags[i].body| + 4
    ensures OffsetOf(tags, i + 1) <= OffsetOf(tags, |tags|)
    ensures tags[..|tags|] == tags
  {
    assert tags[..i + 1][..i] == tags[..i];
    TagsSplit(tags, i);
    assert tags[..|tags|] == tags;
  }

  /** In a recorded file, every tag is where the tags before it end. */
  lemma TagIsThere(file: seq<byte>, tags: seq<Tag>, i: nat)
    requires Recorded(file, tags) && i < |tags|
    ensures var o := OffsetOf(tags, i);
            o + |EncodeTag(tags[i])| <= |file| && file[o..o + |EncodeTag(tags[i])|] == EncodeTag(tags[i])
  {
    TagsSplit(tags, i);
    var a, b := EncodeTags(tags[..i]), EncodeTag(tags[i]);
    var rest := EncodeTags(tags);
    assert rest[..|a| + |b|] == a + b;
    assert rest[|a|..|a| + |b|] == b;
    assert file[DATA_OFFSET..][|a|..|a| + |b|] == file[DATA_OFFSET + |a|..DATA_OFFSET + |a| + |b|];
  }

  function Body(s: seq<byte>, o: nat): nat
    requires o + TAG_HEADER <= |s|
  {
    Be24(s, o + 1)
  }

  function Time(s: seq<byte>, o: nat): u32
    requires o + TAG_HEADER <= |s|
  {
    s[o + 7] as int * U24 + Be24(s, o + 4)
  }

  /** What a reader finds at the place of a tag. */
  lemma TagReads(file: seq<byte>, o: nat, t: Tag)
    requires TagOk(t) && o + |EncodeTag(t)| <= |file| && file[o..o + |EncodeTag(t)|] == EncodeTag(t)
    ensures file[o] == t.kind && Body(file, o) == |t.body| && Time(file, o) == t.timestamp
    ensures file[o + TAG_HEADER..o + TAG_HEADER + |t.body|] == t.body
    ensures Be32(file, o + TAG_HEADER + |t.body|) == TAG_HEADER + |t.body|
  {
    hide Be24, Be32, PutBe24, PutBe32;
    var e := EncodeTag(t);
    var n := |t.body|;
    assert forall k :: 0 <= k < |e| ==> file[o + k] == e[k];
    assert file[o + 1..o + 1 + 3] == PutBe24(n) by { assert e[1..4] == PutBe24(n); }
    Be24RoundTrip(n, file, o + 1);
    assert file[o + 4..o + 4 + 3] == PutBe24(t.timestamp % U24) by { assert e[4..7] == PutBe24(t.timestamp % U24); }
    Be24RoundTrip(t.timestamp % U24, file, o + 4);
    assert file[o + 7] == t.timestamp / U24 by { assert e[7] == t.timestamp / U24; }
    assert file[o + TAG_HEADER..o + TAG_HEADER + n] == t.body by { assert e[TAG_HEADER..TAG_HEADER + n] == t.body; }
    assert file[o + TAG_HEADER + n..o + TAG_HEADER + n + 4] == PutBe32(TAG_HEADER + n) by {
      assert e[TAG_HEADER + n..] == PutBe32(TAG_HEADER + n);
    }
    Be32RoundTrip(TAG_HEADER + n, file, o + TAG_HEADER + n);
  }
}
