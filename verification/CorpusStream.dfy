/** The byte streams a corpus feeds its two hashers. The hash itself stays
    opaque: a hasher is the stream it has been fed. */
module CorpusStream {
  import opened Wrappers
  import opened LittleEndian

  /** One labelled input; the name is the label as UTF-8 bytes. */
  datatype Input = Input(name: seq<Byte>, bytes: seq<Byte>)

  /** Lengths are written as 64-bit words, so an input fits in memory. */
  ghost predicate Addressable(x: Input) {
    |x.name| < TWO64 && |x.bytes| < TWO64
  }

  function Block(bytes: seq<Byte>): seq<Byte> {
    ToBytes(|bytes|, 8) + bytes
  }

  function Fold(x: Input): seq<Byte> {
    Block(x.name) + Block(x.bytes)
  }

  function Stream(xs: seq<Input>): seq<Byte> {
    if xs == [] then [] else Fold(xs[0]) + Stream(xs[1..])
  }

  /** What one input feeds its hasher: the length of the label as eight bytes, low
      end first, the label, the length of the contents likewise, the contents. */
  lemma FoldLayout(x: Input, i: nat)
    ensures var f, n := Fold(x), |x.name|;
      && |f| == 16 + n + |x.bytes| && f[8..8 + n] == x.name && f[16 + n..] == x.bytes
      && (i < 8 ==> f[i] == n / Pow2(8 * i) % 256 && f[8 + n + i] == |x.bytes| / Pow2(8 * i) % 256)
  {
    if i < 8 {
      ByteAt(|x.name|, 8, i);
      ByteAt(|x.bytes|, 8, i);
    }
  }

  /** A stream is its inputs' folds, end to end. */
  lemma {:induction false} StreamsJoin(xs: seq<Input>, ys: seq<Input>, x: Input)
    ensures Stream([x]) == Fold(x) && Stream(xs + ys) == Stream(xs) + Stream(ys)
    ensures TotalBytes([x]) == |x.bytes| && TotalBytes(xs + ys) == TotalBytes(xs) + TotalBytes(ys)
  {
    assert [x][1..] == [];
    if xs == [] {
      assert xs + ys == ys;
    } else {
      StreamsJoin(xs[1..], ys, x);
      assert (xs + ys)[1..] == xs[1..] + ys;
    }
  }

  // ---- decoding ----

  /** One length-prefixed block off the front, with what follows it. */
  function TakeBlock(s: seq<Byte>): (r: Option<(seq<Byte>, seq<Byte>)>)
    ensures r.Some? ==> s == ToBytes(|r.value.0|, 8) + r.value.0 + r.value.1
  {
    if |s| < 8 then None
    else
      var len := FromBytes(s[..8]);
      if |s| < 8 + len then None
      else
        assert ToBytes(len, 8) == s[..8] by { ValueRoundTrip(s[..8]); }
        Some((s[8..8 + len], s[8 + len..]))
  }

  function Decode(s: seq<Byte>): (r: Option<seq<Input>>) {
    if s == [] then Some([])
    else match TakeBlock(s)
      case None => None
      case Some((name, more)) =>
        match TakeBlock(more)
        case None => None
        case Some((bytes, rest)) =>
          match Decode(rest)
          case None => None
          case Some(xs) => Some([Input(name, bytes)] + xs)
  }

  lemma TakeBlockReadsBack(bytes: seq<Byte>, rest: seq<Byte>)
    requires |bytes| < TWO64
    ensures TakeBlock(Block(bytes) + rest) == Some((bytes, rest))
  {
    Pow2At64();
    BytesRoundTrip(|bytes|, 8);
    var s := Block(bytes) + rest;
    assert s[..8] == ToBytes(|bytes|, 8);
    assert s[8..8 + |bytes|] == bytes && s[8 + |bytes|..] == rest;
  }

  /** Decoding a stream gives back the inputs, in order, for any number of
      them. */
  lemma {:induction false} DecodeReadsTheInputsBack(xs: seq<Input>)
    requires forall x | x in xs :: Addressable(x)
    ensures Decode(Stream(xs)) == Some(xs)
  {
    if xs != [] {
      assert Addressable(xs[0]);
      DecodeReadsTheInputsBack(xs[1..]);
      calc {
        Decode(Stream(xs));
        Decode(Fold(xs[0]) + Stream(xs[1..]));
        { DecodeReadsOneBack(xs[0], Stream(xs[1..])); }
        Some([xs[0]] + xs[1..]);
        { assert [xs[0]] + xs[1..] == xs; }
        Some(xs);
      }
    }
  }

  lemma DecodeReadsOneBack(x: Input, rest: seq<Byte>)
    requires Addressable(x)
    ensures Decode(Fold(x) + rest)
         == match Decode(rest) case None => None case Some(xs) => Some([x] + xs)
  {
    var more := Block(x.bytes) + rest;
    assert Fold(x) + rest == Block(x.name) + more;
    TakeBlockReadsBack(x.name, more);
    TakeBlockReadsBack(x.bytes, rest);
  }

  /** And every stream that decodes is the stream of what it decodes to. */
  lemma {:induction false} DecodedStreamsAreStreams(s: seq<Byte>)
    requires Decode(s).Some?
    ensures Stream(Decode(s).value) == s
    decreases |s|
  {
    if s != [] {
      var (name, more) := TakeBlock(s).value;
      var (bytes, rest) := TakeBlock(more).value;
      DecodedStreamsAreStreams(rest);
      var x := Input(name, bytes);
      assert Decode(s).value == [x] + Decode(rest).value;
      assert s == Fold(x) + rest;
    }
  }

  /** Equal streams come from equal inputs: label, length, contents and order
      all reach the digest. */
  lemma StreamsAreUniquelyDecodable(xs: seq<Input>, ys: seq<Input>)
    requires forall x | x in xs :: Addressable(x)
    requires forall y | y in ys :: Addressable(y)
    ensures Stream(xs) == Stream(ys) <==> xs == ys
  {
    DecodeReadsTheInputsBack(xs);
    DecodeReadsTheInputsBack(ys);
  }

  // ---- the two channels ----

  class Corpus {
    var hashed: seq<Byte>
    var inputs: nat
    var bytes: nat
    var build: Option<seq<Byte>>
    ghost var absorbed: seq<Input>
    ghost var declared: seq<Input>

    /** Each channel has seen exactly its own calls. */
    ghost predicate Valid()
      reads this
    {
      && hashed == Stream(absorbed)
      && inputs == |absorbed|
      && bytes == TotalBytes(absorbed)
      && build == (if declared == [] then None else Some(Stream(declared)))
    }

    constructor ()
      ensures Valid() && absorbed == [] && declared == []
    {
      hashed, inputs, bytes, build := [], 0, 0, None;
      absorbed, declared := [], [];
    }

    method Absorb(x: Input)
      requires Valid()
      modifies this
      ensures Valid()
      ensures absorbed == old(absorbed) + [x] && declared == old(declared)
    {
      hashed := hashed + Fold(x);
      inputs := inputs + 1;
      bytes := bytes + |x.bytes|;
      StreamsJoin(absorbed, [x], x);
      absorbed := absorbed + [x];
    }

    method Declare(x: Input)
      requires Valid()
      modifies this
      ensures Valid()
      ensures declared == old(declared) + [x] && absorbed == old(absorbed)
    {
      var fed := if build.None? then [] else build.value;
      build := Some(fed + Fold(x));
      StreamsJoin(declared, [x], x);
      declared := declared + [x];
    }
  }

  function TotalBytes(xs: seq<Input>): nat {
    if xs == [] then 0 else |xs[0].bytes| + TotalBytes(xs[1..])
  }

  datatype Call = AbsorbCall(x: Input) | DeclareCall(x: Input)

  function Absorbed(calls: seq<Call>): seq<Input> {
    if calls == [] then []
    else
      var last := calls[|calls| - 1];
      Absorbed(calls[..|calls| - 1]) + if last.AbsorbCall? then [last.x] else []
  }

  function Declared(calls: seq<Call>): seq<Input> {
    if calls == [] then []
    else
      var last := calls[|calls| - 1];
      Declared(calls[..|calls| - 1]) + if last.DeclareCall? then [last.x] else []
  }

  /** Each channel hears its own calls, in order, and nothing of the other. */
  lemma ChannelsHearTheirOwn(calls: seq<Call>, x: Input)
    ensures Absorbed(calls + [AbsorbCall(x)]) == Absorbed(calls) + [x]
    ensures Absorbed(calls + [DeclareCall(x)]) == Absorbed(calls)
    ensures Declared(calls + [DeclareCall(x)]) == Declared(calls) + [x]
    ensures Declared(calls + [AbsorbCall(x)]) == Declared(calls)
    ensures Absorbed([]) == Declared([]) == []
  {
    assert (calls + [AbsorbCall(x)])[..|calls|] == calls && (calls + [DeclareCall(x)])[..|calls|] == calls;
  }

  /** A setup's calls in any interleaving: each digest's stream is that of its
      own calls, and a setup that declares nothing has no build stream. */
  method RunSetup(calls: seq<Call>) returns (hashed: seq<Byte>, build: Option<seq<Byte>>, inputs: nat, bytes: nat)
    ensures hashed == Stream(Absorbed(calls))
    ensures build == if Declared(calls) == [] then None else Some(Stream(Declared(calls)))
    ensures inputs == |Absorbed(calls)| && bytes == TotalBytes(Absorbed(calls))
  {
    var corpus := new Corpus();
    for i := 0 to |calls|
      invariant corpus.Valid()
      invariant corpus.absorbed == Absorbed(calls[..i]) && corpus.declared == Declared(calls[..i])
    {
      assert calls[..i + 1][..i] == calls[..i];
      match calls[i] {
        case AbsorbCall(x) => corpus.Absorb(x);
        case DeclareCall(x) => corpus.Declare(x);
      }
    }
    assert calls[..|calls|] == calls;
    return corpus.hashed, corpus.build, corpus.inputs, corpus.bytes;
  }
}
