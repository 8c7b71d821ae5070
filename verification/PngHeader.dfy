/** The chunk lists the header check accepts, globally and chunk by chunk (section 5.6 of the PNG Specification,
    Second Edition). Profiles and compressed pixels are judged by unseen code, given here as functions. */
module PngHeader {
  import opened ExclusiveOr
  import opened PngChunks
  import opened PngInterlace
  import opened Wrappers

  const SIGNATURE: seq<Byte> := [0x89, 0x50, 0x4E, 0x47, 0x0D, 0x0A, 0x1A, 0x0A]
  const IHDR: seq<Byte> := [73, 72, 68, 82]
  const PLTE: seq<Byte> := [80, 76, 84, 69]
  const IDAT: seq<Byte> := [73, 68, 65, 84]
  const IEND: seq<Byte> := [73, 69, 78, 68]
  const ACTL: seq<Byte> := [97, 99, 84, 76]
  const FCTL: seq<Byte> := [102, 99, 84, 76]
  const FDAT: seq<Byte> := [102, 100, 65, 84]
  const TRNS: seq<Byte> := [116, 82, 78, 83]
  const CICP: seq<Byte> := [99, 73, 67, 80]
  const ICCP: seq<Byte> := [105, 67, 67, 80]
  const SRGB: seq<Byte> := [115, 82, 71, 66]
  const GAMA: seq<Byte> := [103, 65, 77, 65]
  const CHRM: seq<Byte> := [99, 72, 82, 77]

  datatype Policy = Policy(minimumSide: nat, maximumSide: nat, maximumPixels: nat, maximumBytes: nat, allowGrayscale: bool)

  /** The unseen judges: the checksum, the check of a color profile, and the size of what some bytes decompress
      to when they are exactly one complete compressed stream. */
  datatype Judges = Judges(crc: seq<Byte> -> Word32, profile: seq<Byte> -> bool, inflated: seq<Byte> -> Option<nat>)

  datatype Failure = Invalid | Color | Limits

  datatype Mode = L | RGB | RGBA

  datatype Header = Header(width: nat, height: nat, mode: Mode, names: set<seq<Byte>>)

  predicate Upper(b: Byte) {
    65 <= b <= 90
  }

  predicate Letter(b: Byte) {
    Upper(b) || 97 <= b <= 122
  }

  predicate PlainName(name: seq<Byte>) {
    && |name| == 4 && (forall i :: 0 <= i < 4 ==> Letter(name[i])) && Upper(name[2])
    && (Upper(name[0]) ==> name == IHDR || name == PLTE || name == IDAT || name == IEND)
  }

  predicate Forbidden(name: seq<Byte>) {
    name == ACTL || name == FCTL || name == FDAT || name == TRNS || name == CICP
  }

  predicate ColorName(name: seq<Byte>) {
    name == ICCP || name == SRGB || name == GAMA || name == CHRM
  }

  /** A palette or color declaration: at most one of each, and before the pixels. */
  predicate Early(name: seq<Byte>) {
    name == PLTE || ColorName(name)
  }

  predicate InLimits(policy: Policy, width: nat, height: nat) {
    && policy.minimumSide <= width <= policy.maximumSide && policy.minimumSide <= height <= policy.maximumSide
    && width * height <= policy.maximumPixels
  }

  predicate GoodHeader(policy: Policy, content: seq<Byte>) {
    && |content| == 13
    && InLimits(policy, Number(content[..4]), Number(content[4..8]))
    && content[8] == 8
    && (content[9] == 2 || content[9] == 6 || (content[9] == 0 && policy.allowGrayscale))
    && content[10] == 0 && content[11] == 0 && content[12] <= 1
  }

  predicate GoodContent(judges: Judges, c: Chunk) {
    && (c.name == PLTE ==> 0 < |c.content| <= 768 && |c.content| % 3 == 0)
    && (c.name == SRGB ==> |c.content| == 1 && c.content[0] <= 3)
    && (c.name == GAMA ==> |c.content| == 4 && c.content != [0, 0, 0, 0])
    && (c.name == CHRM ==> |c.content| == 32)
    && (c.name == ICCP ==> judges.profile(c.content))
  }

  function Channels(colorType: Byte): nat {
    if colorType == 0 then 1 else if colorType == 2 then 3 else 4
  }

  function HeaderBudget(content: seq<Byte>): nat
    requires |content| == 13
  {
    Budget(Number(content[..4]), Number(content[4..8]), Channels(content[9]), content[12])
  }

  // Accepted chunk lists.

  predicate At(chunks: seq<Chunk>, i: nat, name: seq<Byte>)
    requires i < |chunks|
  {
    chunks[i].name == name
  }

  ghost predicate Has(chunks: seq<Chunk>, name: seq<Byte>) {
    exists i :: 0 <= i < |chunks| && At(chunks, i, name)
  }

  /** A chunk whose name and content are allowed on their own. */
  predicate Allowed(judges: Judges, c: Chunk) {
    PlainName(c.name) && !Forbidden(c.name) && GoodContent(judges, c)
  }

  ghost predicate EachAllowed(judges: Judges, chunks: seq<Chunk>) {
    forall i :: 0 <= i < |chunks| ==> Allowed(judges, chunks[i])
  }

  /** One header chunk, at the front. */
  ghost predicate Headed(policy: Policy, chunks: seq<Chunk>) {
    && chunks != []
    && (forall i :: 0 <= i < |chunks| ==> (At(chunks, i, IHDR) <==> i == 0))
    && GoodHeader(policy, chunks[0].content)
  }

  /** One empty end chunk, at the end. */
  ghost predicate Closed(chunks: seq<Chunk>) {
    && chunks != []
    && (forall i :: 0 <= i < |chunks| ==> (At(chunks, i, IEND) <==> i == |chunks| - 1))
    && chunks[|chunks| - 1].content == []
  }

  /** The pixel chunks are consecutive. */
  ghost predicate Contiguous(chunks: seq<Chunk>) {
    forall i, j, k :: 0 <= i < j < k < |chunks| && At(chunks, i, IDAT) && At(chunks, k, IDAT) ==> At(chunks, j, IDAT)
  }

  /** No earlier chunk has this one's name, and none is a pixel chunk. */
  ghost predicate FirstOfName(chunks: seq<Chunk>, k: nat)
    requires k < |chunks|
  {
    forall i :: 0 <= i < k ==> !At(chunks, i, chunks[k].name) && !At(chunks, i, IDAT)
  }

  /** Palette and color declarations come once and before the pixels. */
  ghost predicate EarlyOnce(chunks: seq<Chunk>) {
    forall k :: 0 <= k < |chunks| && Early(chunks[k].name) ==> FirstOfName(chunks, k)
  }

  ghost predicate ColorDeclared(chunks: seq<Chunk>) {
    Has(chunks, GAMA) || Has(chunks, CHRM) ==> Has(chunks, ICCP) || Has(chunks, SRGB)
  }

  function PixelData(chunks: seq<Chunk>): seq<Byte> {
    if chunks == [] then []
    else PixelData(chunks[..|chunks| - 1])
         + (if chunks[|chunks| - 1].name == IDAT then chunks[|chunks| - 1].content else [])
  }

  /** The pixels of a file decompress to exactly the bytes its header calls for. */
  ghost predicate PixelsComplete(judges: Judges, chunks: seq<Chunk>)
    requires chunks != [] && |chunks[0].content| == 13
  {
    judges.inflated(PixelData(chunks)) == Some(HeaderBudget(chunks[0].content))
  }

  /** Everything a chunk list must meet. */
  ghost predicate Acceptable(judges: Judges, policy: Policy, pixels: bool, chunks: seq<Chunk>) {
    && EachAllowed(judges, chunks)
    && Headed(policy, chunks) && Closed(chunks)
    && Contiguous(chunks) && Has(chunks, IDAT)
    && EarlyOnce(chunks)
    && ColorDeclared(chunks)
    && (pixels ==> PixelsComplete(judges, chunks))
  }

  // Chunk by chunk.

  /** The pixels were interrupted. */
  ghost predicate Interrupted(chunks: seq<Chunk>) {
    exists i, j :: 0 <= i < j < |chunks| && At(chunks, i, IDAT) && !At(chunks, j, IDAT)
  }

  ghost predicate HeadFollows(policy: Policy, before: seq<Chunk>, c: Chunk) {
    (c.name == IHDR <==> before == []) && (before == [] ==> GoodHeader(policy, c.content))
  }

  ghost predicate EndFollows(before: seq<Chunk>, c: Chunk) {
    (c.name == IEND ==> c.content == []) && !Has(before, IEND)
  }

  ghost predicate EarlyFollows(before: seq<Chunk>, c: Chunk) {
    Early(c.name) ==> !Has(before, c.name) && !Has(before, IDAT)
  }

  ghost predicate PixelsFollow(before: seq<Chunk>, c: Chunk) {
    c.name == IDAT ==> !Interrupted(before)
  }

  /** A chunk can come after some others. */
  ghost predicate Follows(judges: Judges, policy: Policy, before: seq<Chunk>, c: Chunk) {
    && Allowed(judges, c)
    && HeadFollows(policy, before, c) && EndFollows(before, c)
    && EarlyFollows(before, c) && PixelsFollow(before, c)
  }

  ghost predicate InOrder(judges: Judges, policy: Policy, chunks: seq<Chunk>) {
    forall i :: 0 <= i < |chunks| ==> Follows(judges, policy, chunks[..i], chunks[i])
  }

  ghost predicate Ended(chunks: seq<Chunk>) {
    chunks != [] && At(chunks, |chunks| - 1, IEND)
  }

  lemma PrefixHas(chunks: seq<Chunk>, n: nat, name: seq<Byte>)
    requires n <= |chunks|
    ensures Has(chunks[..n], name) <==> exists i :: 0 <= i < n && At(chunks, i, name)
  {
    if i :| 0 <= i < n && At(chunks, i, name) {
      assert At(chunks[..n], i, name);
    }
    if Has(chunks[..n], name) {
      var i :| 0 <= i < n && At(chunks[..n], i, name);
      assert At(chunks, i, name);
    }
  }

  lemma PrefixInterrupted(chunks: seq<Chunk>, n: nat)
    requires n <= |chunks|
    ensures Interrupted(chunks[..n]) <==> exists i, j :: 0 <= i < j < n && At(chunks, i, IDAT) && !At(chunks, j, IDAT)
  {
    if i, j :| 0 <= i < j < n && At(chunks, i, IDAT) && !At(chunks, j, IDAT) {
      assert At(chunks[..n], i, IDAT) && !At(chunks[..n], j, IDAT);
    }
    if Interrupted(chunks[..n]) {
      var i, j :| 0 <= i < j < n && At(chunks[..n], i, IDAT) && !At(chunks[..n], j, IDAT);
      assert At(chunks, i, IDAT) && !At(chunks, j, IDAT);
    }
  }

  lemma HeadByChunk(policy: Policy, chunks: seq<Chunk>)
    requires chunks != []
    ensures (forall k :: 0 <= k < |chunks| ==> HeadFollows(policy, chunks[..k], chunks[k])) <==> Headed(policy, chunks)
  {
    if forall k :: 0 <= k < |chunks| ==> HeadFollows(policy, chunks[..k], chunks[k]) {
      forall i | 0 <= i < |chunks|
        ensures At(chunks, i, IHDR) <==> i == 0
      {
        assert HeadFollows(policy, chunks[..i], chunks[i]);
      }
      assert HeadFollows(policy, chunks[..0], chunks[0]);
    }
    if Headed(policy, chunks) {
      forall k | 0 <= k < |chunks|
        ensures HeadFollows(policy, chunks[..k], chunks[k])
      {
        assert At(chunks, k, IHDR) <==> k == 0;
      }
    }
  }

  lemma EndByChunk(chunks: seq<Chunk>)
    ensures (forall k :: 0 <= k < |chunks| ==> EndFollows(chunks[..k], chunks[k])) && Ended(chunks) <==> Closed(chunks)
  {
    var last := |chunks| - 1;
    if (forall k :: 0 <= k < |chunks| ==> EndFollows(chunks[..k], chunks[k])) && Ended(chunks) {
      assert EndFollows(chunks[..last], chunks[last]);
      PrefixHas(chunks, last, IEND);
    }
    if Closed(chunks) {
      assert At(chunks, last, IEND);
      forall k | 0 <= k < |chunks|
        ensures EndFollows(chunks[..k], chunks[k])
      {
        PrefixHas(chunks, k, IEND);
        assert At(chunks, k, IEND) <==> k == last;
      }
    }
  }

  lemma EarlyAt(chunks: seq<Chunk>, k: nat)
    requires k < |chunks|
    ensures EarlyFollows(chunks[..k], chunks[k]) <==> (Early(chunks[k].name) ==> FirstOfName(chunks, k))
  {
    PrefixHas(chunks, k, chunks[k].name);
    PrefixHas(chunks, k, IDAT);
  }

  lemma EarlyByChunk(chunks: seq<Chunk>)
    ensures (forall k :: 0 <= k < |chunks| ==> EarlyFollows(chunks[..k], chunks[k])) <==> EarlyOnce(chunks)
  {
    forall k | 0 <= k < |chunks|
      ensures EarlyFollows(chunks[..k], chunks[k]) <==> (Early(chunks[k].name) ==> FirstOfName(chunks, k))
    {
      EarlyAt(chunks, k);
    }
  }

  lemma PixelsByChunk(chunks: seq<Chunk>)
    ensures (forall k :: 0 <= k < |chunks| ==> PixelsFollow(chunks[..k], chunks[k])) <==> Contiguous(chunks)
  {
    if forall k :: 0 <= k < |chunks| ==> PixelsFollow(chunks[..k], chunks[k]) {
      forall i, j, k | 0 <= i < j < k < |chunks| && At(chunks, i, IDAT) && At(chunks, k, IDAT)
        ensures At(chunks, j, IDAT)
      {
        assert PixelsFollow(chunks[..k], chunks[k]);
        PrefixInterrupted(chunks, k);
      }
    }
    if Contiguous(chunks) {
      forall k | 0 <= k < |chunks|
        ensures PixelsFollow(chunks[..k], chunks[k])
      {
        PrefixInterrupted(chunks, k);
        assert At(chunks, k, IDAT) <==> chunks[k].name == IDAT;
      }
    }
  }

  /** Taking the chunks one by one, each only by what came before it, accepts exactly the lists of the
      right shape. */
  lemma OrderIsShape(judges: Judges, policy: Policy, chunks: seq<Chunk>)
    ensures InOrder(judges, policy, chunks) && Ended(chunks)
      <==> EachAllowed(judges, chunks) && Headed(policy, chunks) && Closed(chunks) && Contiguous(chunks) && EarlyOnce(chunks)
  {
    if chunks != [] {
      HeadByChunk(policy, chunks);
      EndByChunk(chunks);
      EarlyByChunk(chunks);
      PixelsByChunk(chunks);
      OrderSplits(judges, policy, chunks);
    }
  }

  lemma OrderSplits(judges: Judges, policy: Policy, chunks: seq<Chunk>)
    ensures InOrder(judges, policy, chunks) <==>
      && EachAllowed(judges, chunks)
      && (forall k :: 0 <= k < |chunks| ==> HeadFollows(policy, chunks[..k], chunks[k]))
      && (forall k :: 0 <= k < |chunks| ==> EndFollows(chunks[..k], chunks[k]))
      && (forall k :: 0 <= k < |chunks| ==> EarlyFollows(chunks[..k], chunks[k]))
      && (forall k :: 0 <= k < |chunks| ==> PixelsFollow(chunks[..k], chunks[k]))
  {
    if InOrder(judges, policy, chunks) {
      forall k | 0 <= k < |chunks|
        ensures Allowed(judges, chunks[k]) && HeadFollows(policy, chunks[..k], chunks[k]) && EndFollows(chunks[..k], chunks[k])
        ensures EarlyFollows(chunks[..k], chunks[k]) && PixelsFollow(chunks[..k], chunks[k])
      {
        assert Follows(judges, policy, chunks[..k], chunks[k]);
      }
    }
  }

  // The checks of one chunk, and what reading one adds.

  function Names(chunks: seq<Chunk>): set<seq<Byte>> {
    set i | 0 <= i < |chunks| :: chunks[i].name
  }

  lemma NamesHave(chunks: seq<Chunk>, name: seq<Byte>)
    ensures name in Names(chunks) <==> Has(chunks, name)
  {
    if name in Names(chunks) {
      var i :| 0 <= i < |chunks| && chunks[i].name == name;
      assert At(chunks, i, name);
    }
  }

  /** The checks of the first chunk. */
  method CheckFirst(policy: Policy, c: Chunk) returns (failure: Option<Failure>)
    ensures failure == None <==> c.name == IHDR && GoodHeader(policy, c.content)
  {
    if c.name != IHDR || |c.content| != 13 {
      return Some(Invalid);
    }
    var width, height := Number(c.content[..4]), Number(c.content[4..8]);
    if !InLimits(policy, width, height) {
      return Some(Limits);
    }
    var colorType := c.content[9];
    if c.content[8] != 8 || !(colorType == 2 || colorType == 6 || (colorType == 0 && policy.allowGrayscale)) {
      return Some(Invalid);
    }
    if c.content[10] != 0 || c.content[11] != 0 || c.content[12] > 1 {
      return Some(Invalid);
    }
    failure := None;
  }

  /** The checks of a palette or color declaration; nothing to check for any other chunk. */
  method CheckEarly(judges: Judges, c: Chunk, seen: set<seq<Byte>>) returns (failure: Option<Failure>)
    ensures failure == None <==> GoodContent(judges, c) && (Early(c.name) ==> c.name !in seen && IDAT !in seen)
  {
    var n := |c.content|;
    if c.name == PLTE && (c.name in seen || IDAT in seen || !(0 < n <= 768) || n % 3 != 0) {
      return Some(Invalid);
    }
    if ColorName(c.name) {
      if c.name in seen || IDAT in seen {
        return Some(Color);
      }
      if c.name == SRGB && (n != 1 || c.content[0] > 3) {
        return Some(Color);
      }
      if c.name == GAMA && (n != 4 || c.content == [0, 0, 0, 0]) {
        return Some(Color);
      }
      if c.name == CHRM && n != 32 {
        return Some(Color);
      }
      if c.name == ICCP && !judges.profile(c.content) {
        return Some(Color);
      }
    }
    failure := None;
  }

  /** The checks of one chunk against what came before it. */
  method CheckChunk(judges: Judges, policy: Policy, c: Chunk, first: bool, seen: set<seq<Byte>>, finished: bool, ghost before: seq<Chunk>)
    returns (failure: Option<Failure>)
    requires (first <==> before == []) && seen == Names(before) && (finished <==> Interrupted(before)) && !Has(before, IEND)
    ensures failure == None <==> Follows(judges, policy, before, c)
  {
    NamesHave(before, c.name);
    NamesHave(before, IDAT);
    if !PlainName(c.name) {
      return Some(Invalid);
    }
    if first {
      failure := CheckFirst(policy, c);
      if failure != None {
        return;
      }
    } else if c.name == IHDR {
      return Some(Invalid);
    }
    if c.name == IDAT && finished {
      return Some(Invalid);
    }
    if Forbidden(c.name) {
      return Some(if c.name == CICP then Color else Invalid);
    }
    failure := CheckEarly(judges, c, seen);
    if failure != None {
      return;
    }
    if c.name == IEND && c.content != [] {
      return Some(Invalid);
    }
  }

  function HeaderOf(chunks: seq<Chunk>): Header
    requires chunks != [] && |chunks[0].content| == 13
  {
    var h := chunks[0].content;
    Header(Number(h[..4]), Number(h[4..8]), if h[9] == 0 then L else if h[9] == 6 then RGBA else RGB, Names(chunks))
  }

  /** Some bytes hold exactly an acceptable chunk list. */
  ghost predicate Holds(judges: Judges, policy: Policy, pixels: bool, bytes: seq<Byte>) {
    Chunks(judges.crc, bytes).Some? && Acceptable(judges, policy, pixels, Chunks(judges.crc, bytes).value)
  }

  /** The chunks of the whole are those read so far and those of the rest. */
  ghost predicate ReadSoFar(crc: seq<Byte> -> Word32, bytes: seq<Byte>, read: seq<Chunk>, rest: seq<Byte>) {
    Chunks(crc, bytes) == if Chunks(crc, rest) == None then None else Some(read + Chunks(crc, rest).value)
  }

  lemma ReadOneMore(crc: seq<Byte> -> Word32, bytes: seq<Byte>, read: seq<Chunk>, rest: seq<Byte>)
    requires ReadSoFar(crc, bytes, read, rest) && FirstChunk(crc, rest).Some?
    ensures
      var c := FirstChunk(crc, rest).value;
      12 + |c.content| <= |rest| && ReadSoFar(crc, bytes, read + [c], rest[12 + |c.content|..])
  {
    var c := FirstChunk(crc, rest).value;
    var more := Chunks(crc, rest[12 + |c.content|..]);
    if more.Some? {
      assert read + ([c] + more.value) == (read + [c]) + more.value;
    }
  }

  /** A chunk that cannot follow what was read ends any hope for the file. */
  lemma RefusedChunk(judges: Judges, policy: Policy, pixels: bool, bytes: seq<Byte>, read: seq<Chunk>, rest: seq<Byte>)
    requires ReadSoFar(judges.crc, bytes, read, rest) && FirstChunk(judges.crc, rest).Some?
    requires !Follows(judges, policy, read, FirstChunk(judges.crc, rest).value)
    ensures !Holds(judges, policy, pixels, bytes)
  {
    var c := FirstChunk(judges.crc, rest).value;
    if Chunks(judges.crc, bytes).Some? {
      var all := Chunks(judges.crc, bytes).value;
      assert all[..|read|] == read && all[|read|] == c;
      OrderIsShape(judges, policy, all);
      assert !InOrder(judges, policy, all);
    }
  }

  lemma InterruptedNext(read: seq<Chunk>, c: Chunk)
    ensures Interrupted(read + [c]) <==> Interrupted(read) || (c.name != IDAT && Has(read, IDAT))
    ensures forall name :: Has(read + [c], name) <==> Has(read, name) || c.name == name
    ensures Names(read + [c]) == Names(read) + {c.name}
  {
    var more := read + [c];
    var n := |read|;
    assert more[..n] == read && more[n] == c;
    PrefixInterrupted(more, n);
    forall name
      ensures Has(more, name) <==> Has(read, name) || c.name == name
    {
      PrefixHas(more, n, name);
      if c.name == name {
        assert At(more, n, name);
      }
    }
    if c.name != IDAT && Has(read, IDAT) {
      PrefixHas(more, n, IDAT);
      var i :| 0 <= i < n && At(more, i, IDAT);
      assert !At(more, n, IDAT);
    }
  }
}
