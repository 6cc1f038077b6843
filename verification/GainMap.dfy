// Gain-map bundles: libjxl/lib/extras/gain_map.cc, with the codec of colour
// encodings as a parameter.
module GainMap {
  import opened Bits
  import opened Wrappers

  // How colour encodings are turned into bits: the size in bits, the padded
  // bytes, and the way back.
  datatype Codec<!C> = Codec(bits: C -> Option<nat>, encode: C -> Option<seq<uint8>>, decode: seq<uint8> -> Option<C>)

  // Colours that can be sized are those that can be written; they come back from
  // their bytes, of which there is at least one.
  ghost predicate RoundTrips<C(!new)>(codec: Codec<C>) {
    forall c: C :: Faithful(codec, c)
  }

  ghost predicate Faithful<C(!new)>(codec: Codec<C>, c: C) {
    && (codec.bits(c).Some? <==> codec.encode(c).Some?)
    && (codec.encode(c).Some? ==>
          && |codec.encode(c).value| == DivCeil(codec.bits(c).value, 8) >= 1
          && codec.decode(codec.encode(c).value) == Some(c))
  }

  datatype Bundle<C> = Bundle(
    version: uint8, metadata: seq<uint8>, color: Option<C>, altIcc: seq<uint8>, gainMap: seq<uint8>) {
    // The sizes fit the fields of the public structure.
    predicate Fits() {
      |metadata| < 0x1_0000 && |altIcc| < 0x1_0000_0000 && |gainMap| < 0x1_0000_0000
    }
  }

  function DivCeil(a: nat, b: nat): nat
    requires b > 0
  {
    (a + b - 1) / b
  }

  // ---------------------------------------------------------------------
  // The layout.

  function Be16(n: nat): (r: seq<uint8>)
    requires n < 0x1_0000
    ensures |r| == 2
  {
    [n / 0x100, n % 0x100]
  }

  function Be32(n: nat): (r: seq<uint8>)
    requires n < 0x1_0000_0000
    ensures |r| == 4
  {
    Be16(n / 0x1_0000) + Be16(n % 0x1_0000)
  }

  function FromBe16(s: seq<uint8>): nat
    requires |s| == 2
  {
    var high: int, low: int := s[0], s[1];
    0x100 * high + low
  }

  function FromBe32(s: seq<uint8>): nat
    requires |s| == 4
  {
    0x1_0000 * FromBe16(s[..2]) + FromBe16(s[2..])
  }

  lemma BeRoundTrip(n: nat)
    ensures n < 0x1_0000 ==> FromBe16(Be16(n)) == n
    ensures n < 0x1_0000_0000 ==> FromBe32(Be32(n)) == n
  {
    if n < 0x1_0000_0000 {
      assert Be32(n)[..2] == Be16(n / 0x1_0000) && Be32(n)[2..] == Be16(n % 0x1_0000);
    }
  }

  lemma BeBack16(s: seq<uint8>)
    requires |s| == 2
    ensures FromBe16(s) < 0x1_0000 && Be16(FromBe16(s)) == s
  {
    assert FromBe16(s) / 0x100 == s[0] && FromBe16(s) % 0x100 == s[1];
  }

  lemma BeBack32(s: seq<uint8>)
    requires |s| == 4
    ensures FromBe32(s) < 0x1_0000_0000 && Be32(FromBe32(s)) == s
  {
    BeBack16(s[..2]);
    BeBack16(s[2..]);
    assert FromBe32(s) / 0x1_0000 == FromBe16(s[..2]) && FromBe32(s) % 0x1_0000 == FromBe16(s[2..]);
    assert s == s[..2] + s[2..];
  }

  // The bytes of a bundle whose colour encoding has the bytes `color`.
  function Layout(version: uint8, metadata: seq<uint8>, color: seq<uint8>, altIcc: seq<uint8>, gainMap: seq<uint8>)
    : seq<uint8>
    requires |metadata| < 0x1_0000 && |color| < 0x100 && |altIcc| < 0x1_0000_0000
  {
    [version] + (Be16(|metadata|) + (metadata + ([|color|] + (color + (Be32(|altIcc|) + (altIcc + gainMap))))))
  }

  function ColorBytes<C>(codec: Codec<C>, bundle: Bundle<C>): Option<seq<uint8>> {
    if bundle.color.None? then Some([]) else codec.encode(bundle.color.value)
  }

  // What the writer can write at all.
  predicate Writable<C>(codec: Codec<C>, bundle: Bundle<C>) {
    ColorBytes(codec, bundle).Some? && |ColorBytes(codec, bundle).value| <= 255
  }

  function Serialized<C>(codec: Codec<C>, bundle: Bundle<C>): seq<uint8>
    requires bundle.Fits() && Writable(codec, bundle)
  {
    Layout(bundle.version, bundle.metadata, ColorBytes(codec, bundle).value, bundle.altIcc, bundle.gainMap)
  }

  // The number of bytes that hold so many bits, and no more.
  lemma BytesOfBits(bits: nat)
    ensures 8 * DivCeil(bits, 8) >= bits && (bits > 0 ==> 8 * (DivCeil(bits, 8) - 1) < bits)
    ensures bits == 0 ==> DivCeil(bits, 8) == 0
  {
  }

  // A colour encoding can be written if eight bits can hold its size.
  lemma SizeFitsByte<C>(codec: Codec<C>, bundle: Bundle<C>)
    ensures Writable(codec, bundle)
       <==> ColorBytes(codec, bundle).Some? && |ColorBytes(codec, bundle).value| < Pow2(8)
  {
    Pow2Known();
  }

  // Where everything is, as a reader of the bytes finds it.
  lemma LayoutPlaces(version: uint8, metadata: seq<uint8>, color: seq<uint8>, altIcc: seq<uint8>, gainMap: seq<uint8>)
    requires |metadata| < 0x1_0000 && |color| < 0x100 && |altIcc| < 0x1_0000_0000
    ensures var s := Layout(version, metadata, color, altIcc, gainMap);
            var c, i := 4 + |metadata|, 8 + |metadata| + |color|;
            && |s| == i + |altIcc| + |gainMap| && s[0] == version
            && s[1] as int * 0x100 + s[2] as int == |metadata| && s[3..c - 1] == metadata
            && s[c - 1] as int == |color| && s[c..i - 4] == color
            && s[i - 4] as int * 0x100_0000 + s[i - 3] as int * 0x1_0000 + s[i - 2] as int * 0x100 + s[i - 1] as int
               == |altIcc|
            && s[i..i + |altIcc|] == altIcc && s[i + |altIcc|..] == gainMap
  {
    BytesOf16(|metadata|);
    BytesOf32(|altIcc|);
    hide Be16, Be32;
  }

  lemma BytesOf16(n: nat)
    requires n < 0x1_0000
    ensures Be16(n)[0] as int * 0x100 + Be16(n)[1] as int == n
  {
  }

  lemma BytesOf32(n: nat)
    requires n < 0x1_0000_0000
    ensures Be32(n)[0] as int * 0x100_0000 + Be32(n)[1] as int * 0x1_0000 + Be32(n)[2] as int * 0x100
            + Be32(n)[3] as int == n
  {
    BytesOf16(n / 0x1_0000);
    BytesOf16(n % 0x1_0000);
  }

  // The size that a caller has to provide is that of the serialized bundle.
  method GetBundleSize<C(!new)>(codec: Codec<C>, bundle: Bundle<C>) returns (size: Option<nat>)
    requires RoundTrips(codec) && bundle.Fits()
    ensures size.Some? <==> ColorBytes(codec, bundle).Some?
    ensures Writable(codec, bundle) ==> size == Some(|Serialized(codec, bundle)|)
  {
    var colorEncodingSize := 0;
    if bundle.color.Some? {
      assert Faithful(codec, bundle.color.value);
      var bits := codec.bits(bundle.color.value);
      if bits.None? {
        return None;
      }
      colorEncodingSize := bits.value;
    }
    return Some(1 + 2 + |bundle.metadata| + 1 + DivCeil(colorEncodingSize, 8) + 4 + |bundle.altIcc| + |bundle.gainMap|);
  }

  // ---------------------------------------------------------------------
  // Cursors.

  // SafeAdd on 64 bits, and the check against the end of the buffer.
  function SafeAdvance(next: nat, n: nat, limit: nat): Option<nat> {
    if next + n >= TWO_TO_64 || next + n > limit then None else Some(next + n)
  }

  // Advances by the size of a section and writes it, after what is `done`.
  method PutSection(out: array<uint8>, next: nat, section: seq<uint8>, ghost done: seq<uint8>) returns (r: Option<nat>)
    requires next <= out.Length < TWO_TO_64 && out[..next] == done
    modifies out
    ensures r == (if next + |section| <= out.Length then Some(next + |section|) else None)
    ensures r.Some? ==> out[..r.value] == done + section
  {
    r := SafeAdvance(next, |section|, out.Length);
    if r.None? {
      return;
    }
    for i := 0 to |section|
      invariant out[..next + i] == done + section[..i]
    {
      out[next + i] := section[i];
      assert out[..next + i + 1] == out[..next + i] + [out[next + i]];
      assert section[..i + 1] == section[..i] + [section[i]];
    }
    assert section[..|section|] == section;
  }

  lemma LayoutLength(version: uint8, metadata: seq<uint8>, color: seq<uint8>, altIcc: seq<uint8>, gainMap: seq<uint8>)
    requires |metadata| < 0x1_0000 && |color| < 0x100 && |altIcc| < 0x1_0000_0000
    ensures |Layout(version, metadata, color, altIcc, gainMap)|
         == 1 + 2 + |metadata| + 1 + |color| + 4 + |altIcc| + |gainMap|
  {
  }

  // The sections one after the other.
  function Head(version: uint8, metadata: seq<uint8>): seq<uint8>
    requires |metadata| < 0x1_0000
  {
    [version] + Be16(|metadata|) + metadata
  }

  function Tail(color: seq<uint8>, altIcc: seq<uint8>, gainMap: seq<uint8>): seq<uint8>
    requires |color| < 0x100 && |altIcc| < 0x1_0000_0000
  {
    [|color|] + color + Be32(|altIcc|) + altIcc + gainMap
  }

  lemma LayoutIs(version: uint8, metadata: seq<uint8>, color: seq<uint8>, altIcc: seq<uint8>, gainMap: seq<uint8>)
    requires |metadata| < 0x1_0000 && |color| < 0x100 && |altIcc| < 0x1_0000_0000
    ensures Layout(version, metadata, color, altIcc, gainMap) == Head(version, metadata) + Tail(color, altIcc, gainMap)
  {
    hide Be16, Be32;
  }

  // Succeeds exactly on a buffer of the right size, which then holds the layout.
  // A longer buffer gets the layout too, but the answer is no.
  method WriteBundle<C>(codec: Codec<C>, bundle: Bundle<C>, out: array<uint8>) returns (ok: bool, bytesWritten: nat)
    requires bundle.Fits() && out.Length < TWO_TO_64
    modifies out
    ensures ok <==> Writable(codec, bundle) && out.Length == |Serialized(codec, bundle)|
    ensures Writable(codec, bundle) && |Serialized(codec, bundle)| <= out.Length ==>
              bytesWritten == |Serialized(codec, bundle)| && out[..bytesWritten] == Serialized(codec, bundle)
  {
    var color := ColorBytes(codec, bundle);
    if color.None? {
      return false, 0;
    }
    var next := WriteHead(bundle.version, bundle.metadata, out);
    if next.None? { return false, 0; }
    if |color.value| > 255 {
      return false, 0;
    }
    LayoutLength(bundle.version, bundle.metadata, color.value, bundle.altIcc, bundle.gainMap);
    LayoutIs(bundle.version, bundle.metadata, color.value, bundle.altIcc, bundle.gainMap);
    hide Layout, Head, Tail;
    next := WriteTail(color.value, bundle.altIcc, bundle.gainMap, out, next.value, out[..next.value]);
    if next.None? { return false, 0; }
    return next.value == out.Length, next.value;
  }

  method WriteHead(version: uint8, metadata: seq<uint8>, out: array<uint8>) returns (r: Option<nat>)
    requires |metadata| < 0x1_0000 && out.Length < TWO_TO_64
    modifies out
    ensures r == (if |Head(version, metadata)| <= out.Length then Some(|Head(version, metadata)|) else None)
    ensures |Head(version, metadata)| == 3 + |metadata|
    ensures r.Some? ==> out[..r.value] == Head(version, metadata)
  {
    hide Be16;
    r := PutSection(out, 0, [version], []);
    if r.None? { return; }
    r := PutSection(out, r.value, Be16(|metadata|), out[..r.value]);
    if r.None? { return; }
    r := PutSection(out, r.value, metadata, out[..r.value]);
  }

  method WriteTail(color: seq<uint8>, altIcc: seq<uint8>, gainMap: seq<uint8>, out: array<uint8>, start: nat,
                   ghost done: seq<uint8>) returns (r: Option<nat>)
    requires |color| < 0x100 && |altIcc| < 0x1_0000_0000 && start <= out.Length < TWO_TO_64 && out[..start] == done
    modifies out
    ensures |Tail(color, altIcc, gainMap)| == 5 + |color| + |altIcc| + |gainMap|
    ensures r == (if start + |Tail(color, altIcc, gainMap)| <= out.Length
                  then Some(start + |Tail(color, altIcc, gainMap)|)
                  else None)
    ensures r.Some? ==> out[..r.value] == done + Tail(color, altIcc, gainMap)
  {
    hide Be32;
    r := PutSection(out, start, [|color|], done);
    if r.None? { return; }
    r := PutSection(out, r.value, color, out[..r.value]);
    if r.None? { return; }
    r := PutSection(out, r.value, Be32(|altIcc|), out[..r.value]);
    if r.None? { return; }
    r := PutSection(out, r.value, altIcc, out[..r.value]);
    if r.None? { return; }
    r := PutSection(out, r.value, gainMap, out[..r.value]);
    if r.Some? {
      assert done + [|color|] + color + Be32(|altIcc|) + altIcc + gainMap == done + Tail(color, altIcc, gainMap);
    }
  }

  // ---------------------------------------------------------------------
  // Reading.

  datatype Sections = Sections(
    version: uint8, metadata: seq<uint8>, color: seq<uint8>, altIcc: seq<uint8>, gainMap: seq<uint8>)

  ghost predicate AreSections(s: Sections, input: seq<uint8>) {
    && |s.metadata| < 0x1_0000 && |s.color| < 0x100 && |s.altIcc| < 0x1_0000_0000
    && input == Layout(s.version, s.metadata, s.color, s.altIcc, s.gainMap)
  }

  // The sections of a buffer, found by their sizes.
  function Split(input: seq<uint8>): Option<Sections> {
    if |input| < 3 then None
    else
      var p := 3 + FromBe16(input[1..3]);
      if |input| <= p then None
      else
        var q: int := p + 1 + input[p];
        if |input| < q + 4 then None
        else
          var e := q + 4 + FromBe32(input[q..q + 4]);
          if |input| < e then None
          else Some(Sections(input[0], input[3..p], input[p + 1..q], input[q + 4..e], input[e..]))
  }

  // Sizes make the layout unambiguous.
  lemma SplitOfLayout(s: Sections, input: seq<uint8>)
    requires AreSections(s, input)
    ensures Split(input) == Some(s)
  {
    hide Layout, Be16, Be32, FromBe16, FromBe32;
    BeRoundTrip(|s.metadata|);
    BeRoundTrip(|s.altIcc|);
    var tail := [|s.color|] + (s.color + (Be32(|s.altIcc|) + (s.altIcc + s.gainMap)));
    LayoutTail(s, input, tail);
    HeadOfLayout(s, input, tail);
    TailOfLayout(s, input, tail, 3 + |s.metadata|);
  }

  lemma LayoutTail(s: Sections, input: seq<uint8>, tail: seq<uint8>)
    requires AreSections(s, input)
    requires tail == [|s.color|] + (s.color + (Be32(|s.altIcc|) + (s.altIcc + s.gainMap)))
    ensures input == [s.version] + (Be16(|s.metadata|) + (s.metadata + tail))
  {
    hide Be16, Be32;
  }

  lemma HeadOfLayout(s: Sections, input: seq<uint8>, tail: seq<uint8>)
    requires |s.metadata| < 0x1_0000 && input == [s.version] + (Be16(|s.metadata|) + (s.metadata + tail))
    ensures var p := 3 + |s.metadata|;
      && p <= |input| && input[0] == s.version && input[1..3] == Be16(|s.metadata|) && input[3..p] == s.metadata
      && input[p..] == tail
  {
    hide Be16;
  }

  lemma TailOfLayout(s: Sections, input: seq<uint8>, tail: seq<uint8>, p: nat)
    requires p <= |input| && input[p..] == tail && |s.color| < 0x100 && |s.altIcc| < 0x1_0000_0000
    requires tail == [|s.color|] + (s.color + (Be32(|s.altIcc|) + (s.altIcc + s.gainMap)))
    ensures var q := p + 1 + |s.color|;
      var e := q + 4 + |s.altIcc|;
      && e <= |input| && input[p] == |s.color| && input[p + 1..q] == s.color && input[q..q + 4] == Be32(|s.altIcc|)
      && input[q + 4..e] == s.altIcc && input[e..] == s.gainMap
  {
    hide Be32;
    assert |tail| == |input| - p;
    forall k: nat | k < |tail|
      ensures input[p + k] == tail[k]
    {
      assert input[p..][k] == tail[k];
    }
    var c, i: nat := |s.color|, |s.altIcc|;
    assert tail[0] == c && tail[1..1 + c] == s.color && tail[1 + c..5 + c] == Be32(i);
    assert tail[5 + c..5 + c + i] == s.altIcc && tail[5 + c + i..] == s.gainMap;
    Window(input, tail, p, 1, 1 + c);
    Window(input, tail, p, 1 + c, 5 + c);
    Window(input, tail, p, 5 + c, 5 + c + i);
    Window(input, tail, p, 5 + c + i, |tail|);
  }

  lemma Window(s: seq<uint8>, t: seq<uint8>, p: nat, a: nat, b: nat)
    requires p <= |s| && s[p..] == t && a <= b <= |t|
    ensures s[p + a..p + b] == t[a..b]
  {
    var u, v := s[p + a..p + b], t[a..b];
    forall k: nat | k < |u|
      ensures u[k] == v[k]
    {
      assert s[p..][a + k] == s[p + a + k];
    }
  }

  lemma SplitIsLayout(input: seq<uint8>)
    requires Split(input).Some?
    ensures AreSections(Split(input).value, input)
  {
    BeBack16(input[1..3]);
    var p := 3 + FromBe16(input[1..3]);
    var q: nat := p + 1 + input[p];
    BeBack32(input[q..q + 4]);
    var e := q + 4 + FromBe32(input[q..q + 4]);
    assert |input[3..p]| == p - 3 && |input[p + 1..q]| == input[p] && |input[q + 4..e]| == e - q - 4;
    CutsAreLayout(input, Split(input).value, p, q, e);
  }

  // Cutting where the sizes say.
  lemma CutsAreLayout(input: seq<uint8>, s: Sections, p: nat, q: nat, e: nat)
    requires 3 <= p < q <= q + 4 <= e <= |input|
    requires s == Sections(input[0], input[3..p], input[p + 1..q], input[q + 4..e], input[e..])
    requires |s.metadata| < 0x1_0000 && Be16(|s.metadata|) == input[1..3]
    requires |s.color| < 0x100 && input[p] == |s.color|
    requires |s.altIcc| < 0x1_0000_0000 && Be32(|s.altIcc|) == input[q..q + 4]
    ensures AreSections(s, input)
  {
    CutsOfTail(input, s, p, q, e);
    CutsOfHead(input, s, p);
    hide Be16, Be32;
  }

  lemma CutsOfTail(input: seq<uint8>, s: Sections, p: nat, q: nat, e: nat)
    requires p < q <= q + 4 <= e <= |input|
    requires s.color == input[p + 1..q] && s.altIcc == input[q + 4..e] && s.gainMap == input[e..]
    requires |s.color| < 0x100 && input[p] == |s.color|
    requires |s.altIcc| < 0x1_0000_0000 && Be32(|s.altIcc|) == input[q..q + 4]
    ensures [|s.color|] + (s.color + (Be32(|s.altIcc|) + (s.altIcc + s.gainMap))) == input[p..]
  {
    hide Be32;
    assert s.altIcc + s.gainMap == input[q + 4..] by { Join(input, q + 4, e); }
    assert Be32(|s.altIcc|) + input[q + 4..] == input[q..] by { Join(input, q, q + 4); }
    assert s.color + input[q..] == input[p + 1..] by { Join(input, p + 1, q); }
    assert [|s.color|] + input[p + 1..] == input[p..];
  }

  lemma CutsOfHead(input: seq<uint8>, s: Sections, p: nat)
    requires 3 <= p <= |input| && s.version == input[0] && s.metadata == input[3..p]
    requires |s.metadata| < 0x1_0000 && Be16(|s.metadata|) == input[1..3]
    ensures [s.version] + (Be16(|s.metadata|) + (s.metadata + input[p..])) == input
  {
    hide Be16;
    Join(input, 3, p);
    Join(input, 1, 3);
    Join(input, 0, 1);
    assert input[0..1] == [input[0]] && input[0..] == input;
  }

  lemma Join(s: seq<uint8>, a: nat, b: nat)
    requires a <= b <= |s|
    ensures s[a..b] + s[b..] == s[a..]
  {
  }

  // The bundle that a buffer stands for.
  ghost predicate StandsFor<C>(codec: Codec<C>, input: seq<uint8>, bundle: Bundle<C>) {
    exists color: seq<uint8> ::
      && AreSections(Sections(bundle.version, bundle.metadata, color, bundle.altIcc, bundle.gainMap), input)
      && bundle.Fits() && bundle.color == (if color == [] then None else codec.decode(color))
      && (color != [] ==> bundle.color.Some?)
  }

  function BundleOf<C>(codec: Codec<C>, input: seq<uint8>): Option<Bundle<C>> {
    var split := Split(input);
    if split.None? then None
    else
      var s := split.value;
      var color := if s.color == [] then None else codec.decode(s.color);
      if (s.color != [] && color.None?) || |s.gainMap| >= 0x1_0000_0000 then None
      else Some(Bundle(s.version, s.metadata, color, s.altIcc, s.gainMap))
  }

  lemma BundleOfStandsFor<C>(codec: Codec<C>, input: seq<uint8>, bundle: Bundle<C>)
    ensures BundleOf(codec, input) == Some(bundle) <==> StandsFor(codec, input, bundle)
  {
    hide AreSections;
    if StandsFor(codec, input, bundle) {
      var color: seq<uint8> :|
        AreSections(Sections(bundle.version, bundle.metadata, color, bundle.altIcc, bundle.gainMap), input)
        && bundle.Fits() && bundle.color == (if color == [] then None else codec.decode(color))
        && (color != [] ==> bundle.color.Some?);
      SplitOfLayout(Sections(bundle.version, bundle.metadata, color, bundle.altIcc, bundle.gainMap), input);
    }
    if BundleOf(codec, input) == Some(bundle) {
      SplitIsLayout(input);
      SplitFits(input);
      var s := Split(input).value;
      hide Split;
      assert AreSections(Sections(bundle.version, bundle.metadata, s.color, bundle.altIcc, bundle.gainMap), input);
    }
  }

  lemma SplitFits(input: seq<uint8>)
    requires Split(input).Some?
    ensures |Split(input).value.metadata| < 0x1_0000 && |Split(input).value.altIcc| < 0x1_0000_0000
  {
    SplitIsLayout(input);
    hide Split, Layout;
  }

  // Reads the one bundle that the buffer stands for, if there is one, and all of the buffer.
  method ReadBundle<C(!new)>(codec: Codec<C>, input: seq<uint8>) returns (r: Option<Bundle<C>>, bytesRead: nat)
    requires |input| < TWO_TO_64
    ensures forall bundle: Bundle<C> :: r == Some(bundle) <==> StandsFor(codec, input, bundle)
    ensures r.Some? ==> bytesRead == |input|
  {
    forall bundle: Bundle<C>
      ensures BundleOf(codec, input) == Some(bundle) <==> StandsFor(codec, input, bundle)
    {
      BundleOfStandsFor(codec, input, bundle);
    }
    r, bytesRead := ReadSections(codec, input);
  }

  // The version and the metadata, and where they end.
  method ReadHead(input: seq<uint8>) returns (next: Option<nat>, version: uint8, metadata: seq<uint8>)
    requires |input| < TWO_TO_64
    ensures next.Some? <==> |input| >= 3 && 3 + FromBe16(input[1..3]) <= |input|
    ensures next.Some? ==> next.value == 3 + FromBe16(input[1..3])
    ensures next.Some? ==> version == input[0] && metadata == input[3..next.value]
  {
    hide FromBe16;
    version, metadata := 0, [];
    var cursor := 0;
    next := SafeAdvance(0, 1, |input|);
    if next.None? { return; }
    version := input[cursor];
    cursor, next := next.value, SafeAdvance(next.value, 2, |input|);
    if next.None? { return; }
    var metadataSize := FromBe16(input[cursor..cursor + 2]);
    cursor, next := next.value, SafeAdvance(next.value, metadataSize, |input|);
    if next.None? { return; }
    metadata := input[cursor..cursor + metadataSize];
  }

  // The colour encoding at p, if there is one.
  method ReadColor<C>(codec: Codec<C>, input: seq<uint8>, p: nat) returns (next: Option<nat>, color: Option<C>)
    requires p <= |input| < TWO_TO_64
    ensures next.Some? ==> p < |input| && next.value == p + 1 + input[p] <= |input|
    ensures next.Some? ==> color == if input[p] == 0 then None else codec.decode(input[p + 1..next.value])
    ensures next.Some? <==> p < |input| && p + 1 + input[p] <= |input|
                            && (input[p] > 0 ==> codec.decode(input[p + 1..p + 1 + input[p]]).Some?)
  {
    color := None;
    var cursor := p;
    next := SafeAdvance(p, 1, |input|);
    if next.None? { return; }
    var colorSize: nat := input[cursor];
    if colorSize > 0 {
      cursor, next := next.value, SafeAdvance(next.value, colorSize, |input|);
      if next.None? { return; }
      color := codec.decode(input[cursor..cursor + colorSize]);
      if color.None? {
        next := None;
      }
    }
  }

  // The profile at q, and the gain map, which takes the rest.
  method ReadTail(input: seq<uint8>, q: nat) returns (next: Option<nat>, altIcc: seq<uint8>, gainMap: seq<uint8>)
    requires q <= |input| < TWO_TO_64
    ensures next.Some? ==> q + 4 <= |input| && q + 4 + FromBe32(input[q..q + 4]) <= |input| == next.value
    ensures next.Some? ==>
              var e := q + 4 + FromBe32(input[q..q + 4]); altIcc == input[q + 4..e] && gainMap == input[e..]
    ensures next.Some? <==> q + 4 <= |input| && q + 4 + FromBe32(input[q..q + 4]) <= |input|
                            && |input| - (q + 4 + FromBe32(input[q..q + 4])) < 0x1_0000_0000
  {
    hide FromBe32;
    altIcc, gainMap := [], [];
    var cursor := q;
    next := SafeAdvance(q, 4, |input|);
    if next.None? { return; }
    var iccSize := FromBe32(input[cursor..cursor + 4]);
    cursor, next := next.value, SafeAdvance(next.value, iccSize, |input|);
    if next.None? { return; }
    altIcc := input[cursor..cursor + iccSize];
    cursor := next.value;
    var remaining := |input| - cursor;
    if remaining > 0xFFFF_FFFF {
      next := None;
      return;
    }
    cursor, next := next.value, SafeAdvance(next.value, remaining, |input|);
    gainMap := input[cursor..cursor + remaining];
    assert gainMap == input[cursor..];
  }

  method ReadSections<C>(codec: Codec<C>, input: seq<uint8>) returns (r: Option<Bundle<C>>, bytesRead: nat)
    requires |input| < TWO_TO_64
    ensures r == BundleOf(codec, input) && (r.Some? ==> bytesRead == |input|)
  {
    hide FromBe16, FromBe32;
    r, bytesRead := None, 0;
    if |input| == 0 {
      return;
    }
    var next, version, metadata := ReadHead(input);
    if next.None? { return; }
    var color;
    next, color := ReadColor(codec, input, next.value);
    if next.None? { return; }
    var altIcc, gainMap;
    next, altIcc, gainMap := ReadTail(input, next.value);
    if next.None? { return; }
    return Some(Bundle(version, metadata, color, altIcc, gainMap)), next.value;
  }

  // What was written on a buffer of the right size is read back whole.
  lemma WrittenIsRead<C(!new)>(codec: Codec<C>, bundle: Bundle<C>)
    requires RoundTrips(codec) && bundle.Fits() && Writable(codec, bundle)
    ensures StandsFor(codec, Serialized(codec, bundle), bundle)
  {
    if bundle.color.Some? {
      assert Faithful(codec, bundle.color.value);
    }
    var color := ColorBytes(codec, bundle).value;
    assert AreSections(Sections(bundle.version, bundle.metadata, color, bundle.altIcc, bundle.gainMap),
                       Serialized(codec, bundle));
    hide Layout, Serialized, RoundTrips;
  }

  // A buffer stands for at most one bundle.
  lemma StandsForOne<C>(codec: Codec<C>, input: seq<uint8>, a: Bundle<C>, b: Bundle<C>)
    requires StandsFor(codec, input, a) && StandsFor(codec, input, b)
    ensures a == b
  {
    BundleOfStandsFor(codec, input, a);
    BundleOfStandsFor(codec, input, b);
    hide StandsFor, BundleOf;
  }

  // Size, write, read.
  method RoundTrip<C(!new)>(codec: Codec<C>, bundle: Bundle<C>) returns (ok: bool, back: Option<Bundle<C>>)
    requires RoundTrips(codec) && bundle.Fits()
    requires Writable(codec, bundle) ==> |Serialized(codec, bundle)| < TWO_TO_64
    ensures ok <==> Writable(codec, bundle)
    ensures ok ==> back == Some(bundle)
  {
    hide RoundTrips, StandsFor;
    var size := GetBundleSize(codec, bundle);
    if size.None? || size.value >= TWO_TO_64 {
      return false, None;
    }
    var out := new uint8[size.value];
    var written;
    ok, written := WriteBundle(codec, bundle, out);
    if ok {
      var read;
      back, read := ReadBundle(codec, out[..]);
      WrittenIsRead(codec, bundle);
      assert out[..written] == out[..];
      assert back == Some(bundle) <==> StandsFor(codec, out[..], bundle);
    } else {
      back := None;
    }
  }
}
