/** The ClientHello printer (crates/sni_router/src/testing.rs) and its round trip through the parser. */
module Builder {
  import opened Wrappers
  import opened Bytes
  import opened Names
  import opened Protocol
  import opened Cursor
  import opened Hello
  import opened HelloLanguage
  import opened Records

  const EXTENSION_PADDING: u16 := 0x0015

  /** A fragment as a handshake record; the builder always writes minor version 1. */
  function EncodeFragment(fragment: Vector16): seq<byte> {
    [0x16, 0x03, 0x01] + Vec16(fragment)
  }

  function EncodeFragments(fragments: seq<Vector16>): seq<byte> {
    if fragments == [] then []
    else EncodeFragments(fragments[..|fragments| - 1]) + EncodeFragment(fragments[|fragments| - 1])
  }

  function Join(fragments: seq<Vector16>): seq<byte> {
    if fragments == [] then [] else Join(fragments[..|fragments| - 1]) + fragments[|fragments| - 1]
  }

  method PushVec8(out: seq<byte>, bytes: Vector8) returns (result: seq<byte>)
    ensures result == out + Vec8(bytes)
  {
    result := out + [|bytes|];
    result := result + bytes;
  }

  method PushVec16(out: seq<byte>, bytes: Vector16) returns (result: seq<byte>)
    ensures result == out + Vec16(bytes)
  {
    result := out + U16Bytes(|bytes|);
    result := result + bytes;
  }

  method PushRecord(wire: seq<byte>, fragment: Vector16) returns (result: seq<byte>)
    ensures result == wire + EncodeFragment(fragment)
  {
    result := wire + [0x16, 0x03, 0x01];
    result := PushVec16(result, fragment);
  }

  // ----- Appending one element ------------------------------------------------

  lemma {:induction false} NamesSnoc(names: seq<ServerName>, last: ServerName)
    ensures EncodeNames(names + [last]) == EncodeNames(names) + ([last.kind] + Vec16(last.name))
  {
    hide Vec16;
    var all := names + [last];
    if names == [] {
      assert all[1..] == [];
    } else {
      NamesSnoc(names[1..], last);
      assert all[1..] == names[1..] + [last];
      var head, end := [names[0].kind] + Vec16(names[0].name), [last.kind] + Vec16(last.name);
      assert head + (EncodeNames(names[1..]) + end) == head + EncodeNames(names[1..]) + end;
    }
  }

  lemma {:induction false} ExtensionsSnoc(extensions: seq<Extension>, last: Extension)
    requires Fits(last) && forall e :: e in extensions ==> Fits(e)
    ensures EncodeExtensions(extensions + [last]) ==
            EncodeExtensions(extensions) + (U16Bytes(ExtensionType(last)) + Vec16(ExtensionData(last)))
  {
    hide Vec16, U16Bytes, ExtensionData, ExtensionType;
    var all := extensions + [last];
    if extensions == [] {
      assert all[1..] == [];
    } else {
      ExtensionsSnoc(extensions[1..], last);
      assert all[1..] == extensions[1..] + [last];
      var first := extensions[0];
      var head := U16Bytes(ExtensionType(first)) + Vec16(ExtensionData(first));
      var end := U16Bytes(ExtensionType(last)) + Vec16(ExtensionData(last));
      assert head + (EncodeExtensions(extensions[1..]) + end) == head + EncodeExtensions(extensions[1..]) + end;
    }
  }

  method NameList(names: seq<ServerName>) returns (list: seq<byte>)
    ensures list == EncodeNames(names)
  {
    list := [];
    for i := 0 to |names|
      invariant list == EncodeNames(names[..i])
    {
      NamesSnoc(names[..i], names[i]);
      assert names[..i + 1] == names[..i] + [names[i]];
      list := list + [names[i].kind];
      list := PushVec16(list, names[i].name);
    }
    assert names[..|names|] == names;
  }

  method ServerNameExtension(names: seq<ServerName>) returns (bytes: seq<byte>)
    requires Fits(ServerNames(names))
    ensures bytes == EncodeExtensions([ServerNames(names)])
  {
    var list := NameList(names);
    var data := PushVec16([], list);
    bytes := U16Bytes(EXTENSION_SERVER_NAME);
    bytes := PushVec16(bytes, data);
    ghost var one := [ServerNames(names)];
    assert one[1..] == [];
  }

  function Others(extensions: seq<(u16, Vector16)>): seq<Extension> {
    seq(|extensions|, i requires 0 <= i < |extensions| => Other(extensions[i].0, extensions[i].1))
  }

  lemma OneMoreOther(before: seq<Extension>, extensions: seq<(u16, Vector16)>, i: nat)
    requires i < |extensions|
    requires forall e :: e in before + Others(extensions[..i]) ==> Fits(e)
    ensures forall e :: e in before + Others(extensions[..i + 1]) ==> Fits(e)
    ensures EncodeExtensions(before + Others(extensions[..i + 1]))
            == EncodeExtensions(before + Others(extensions[..i])) + U16Bytes(extensions[i].0) + Vec16(extensions[i].1)
  {
    hide EncodeExtensions;
    var next := Other(extensions[i].0, extensions[i].1);
    assert before + Others(extensions[..i + 1]) == before + Others(extensions[..i]) + [next];
    ExtensionsSnoc(before + Others(extensions[..i]), next);
  }

  method AppendExtensions(start: seq<byte>, extensions: seq<(u16, Vector16)>, ghost before: seq<Extension>)
    returns (bytes: seq<byte>)
    requires forall e :: e in before ==> Fits(e)
    requires start == EncodeExtensions(before)
    ensures forall e :: e in before + Others(extensions) ==> Fits(e)
    ensures bytes == EncodeExtensions(before + Others(extensions))
  {
    hide Fits, EncodeExtensions, ExtensionData, ExtensionType;
    bytes := start;
    assert before + Others([]) == before;
    for i := 0 to |extensions|
      invariant forall e :: e in before + Others(extensions[..i]) ==> Fits(e)
      invariant bytes == EncodeExtensions(before + Others(extensions[..i]))
    {
      OneMoreOther(before, extensions, i);
      bytes := bytes + U16Bytes(extensions[i].0);
      bytes := PushVec16(bytes, extensions[i].1);
    }
    assert extensions[..|extensions|] == extensions;
  }

  lemma TwoBytes(n: u16)
    ensures |U16Bytes(n)| == 2
  {
  }

  lemma OneByOne(start: seq<byte>, a: seq<byte>, b: seq<byte>, c: seq<byte>, block: seq<byte>)
    ensures start + a + b + c + block == start + (a + (b + (c + block)))
  {
  }

  // ----- The builder ----------------------------------------------------------

  datatype ClientHelloBuilder = ClientHelloBuilder(
    legacyVersion: u16,
    sessionId: Vector8,
    cipherSuites: Vector16,
    compressionMethods: Vector8,
    serverNames: Option<seq<ServerName>>,
    extensions: seq<(u16, Vector16)>,
    paddedBodyLen: Option<nat>,
    omitExtensions: bool,
    trailingBodyBytes: seq<byte>)
  {
    /** The extensions before padding, in wire order. */
    function PlainExtensions(): seq<Extension> {
      (if serverNames.Some? then [ServerNames(serverNames.value)] else []) + Others(extensions)
    }

    /** The body bytes around the padding. */
    function FixedLen(): nat
      requires BlockFits(PlainExtensions())
    {
      2 + RANDOM_LEN + |Vec8(sessionId)| + |Vec16(cipherSuites)| + |Vec8(compressionMethods)|
      + 2 + |EncodeExtensions(PlainExtensions())| + 4 + |trailingBodyBytes|
    }

    function AllExtensions(): seq<Extension>
      requires BlockFits(PlainExtensions())
      requires paddedBodyLen.Some? ==> FixedLen() <= paddedBodyLen.value < FixedLen() + 0x1_0000
    {
      PlainExtensions()
      + if paddedBodyLen.Some? then [Other(EXTENSION_PADDING, seq(paddedBodyLen.value - FixedLen(), _ => 0))] else []
    }

    /** Building panics on anything that does not fit its length prefix or the padding target. */
    predicate Builds() {
      !omitExtensions ==>
        && BlockFits(PlainExtensions())
        && (paddedBodyLen.Some? ==> FixedLen() <= paddedBodyLen.value < FixedLen() + 0x1_0000)
        && BlockFits(AllExtensions())
    }

    /** The hello described, but for its version's major number. */
    function AsHello(): ClientHello
      requires Builds()
    {
      ClientHello(legacyVersion % 0x100, seq(RANDOM_LEN, _ => 0x42), sessionId, cipherSuites, compressionMethods,
                  if omitExtensions then None else Some(AllExtensions()))
    }

    /** The fields in the order they are printed. */
    function BodyBytes(): seq<byte>
      requires Builds()
    {
      U16Bytes(legacyVersion) + AsHello().random
      + EncodeAfterRandom(sessionId, cipherSuites, compressionMethods, EncodeBlock(AsHello().extensions))
      + trailingBodyBytes
    }

    /** Adds a `server_name` extension with one host_name. */
    function WithSni(name: Vector16): ClientHelloBuilder {
      this.(serverNames := Some([ServerName(NAME_TYPE_HOST_NAME, name)]))
    }

    method ExtensionBytes() returns (bytes: seq<byte>)
      requires BlockFits(PlainExtensions())
      ensures bytes == EncodeExtensions(PlainExtensions())
    {
      assert EncodeExtensions([]) == [];
      hide EncodeExtensions, EncodeNames;
      bytes := [];
      ghost var before: seq<Extension> := [];
      if serverNames.Some? {
        before := [ServerNames(serverNames.value)];
        assert before[0] == PlainExtensions()[0] && before[0] in PlainExtensions();
        bytes := ServerNameExtension(serverNames.value);
      }
      bytes := AppendExtensions(bytes, extensions, before);
    }

    method Body() returns (body: seq<byte>)
      requires Builds()
      ensures body == BodyBytes()
    {
      hide EncodeExtensions, EncodeNames, Vec8, Vec16, U16Bytes, EncodeHello;
      var start := U16Bytes(legacyVersion) + seq(RANDOM_LEN, _ => 0x42);
      assert |U16Bytes(legacyVersion)| == 2 by {
        TwoBytes(legacyVersion);
      }
      body := PushVec8(start, sessionId);
      body := PushVec16(body, cipherSuites);
      body := PushVec8(body, compressionMethods);
      ghost var block := [];
      if !omitExtensions {
        var bytes := ExtensionBytes();
        if paddedBodyLen.Some? {
          var fixed := |body| + 2 + |bytes| + 4 + |trailingBodyBytes|;
          var pad := paddedBodyLen.value - fixed;
          assert fixed == FixedLen();
          ExtensionsSnoc(PlainExtensions(), Other(EXTENSION_PADDING, seq(pad, _ => 0)));
          bytes := bytes + U16Bytes(EXTENSION_PADDING);
          bytes := PushVec16(bytes, seq(pad, _ => 0));
        } else {
          assert AllExtensions() == PlainExtensions();
        }
        assert bytes == EncodeExtensions(AllExtensions());
        block := Vec16(bytes);
        body := PushVec16(body, bytes);
      }
      assert start == U16Bytes(legacyVersion) + AsHello().random;
      assert omitExtensions ==> body + [] == body;
      assert block == EncodeBlock(AsHello().extensions);
      OneByOne(start, Vec8(sessionId), Vec16(cipherSuites), Vec8(compressionMethods), block);
      body := body + trailingBodyBytes;
    }

    method Handshake() returns (handshake: seq<byte>)
      requires Builds()
      ensures handshake == HandshakeOf(BodyBytes())
    {
      var body := Body();
      handshake := [0x01] + U24Bytes(|body|);
      handshake := handshake + body;
    }

    /** The handshake in maximum-size records. */
    method Build() returns (wire: seq<byte>)
      requires Builds()
      ensures wire == EncodeFragments(Chunks(HandshakeOf(BodyBytes()), MAX_RECORD_PAYLOAD))
    {
      var handshake := Handshake();
      wire := RecordsOf(handshake, MAX_RECORD_PAYLOAD);
    }
  }

  /** With major version 3 the body is the encoding of the hello described, and the trailing bytes. */
  lemma BodyIsTheHello(builder: ClientHelloBuilder)
    requires builder.Builds() && builder.legacyVersion / 0x100 == 3
    ensures builder.BodyBytes() == EncodeHello(builder.AsHello()) + builder.trailingBodyBytes
  {
    hide EncodeHello, EncodeAfterRandom, EncodeBlock;
    var body := EncodeHello(builder.AsHello());
    EncodingInTwo(builder.AsHello());
    assert body == body[..2] + body[2..2 + RANDOM_LEN] + body[2 + RANDOM_LEN..];
    assert body[..2] == U16Bytes(builder.legacyVersion);
  }

  /** A padded hello's body has the length asked for. */
  lemma PaddedToTarget(builder: ClientHelloBuilder)
    requires builder.Builds() && !builder.omitExtensions && builder.paddedBodyLen.Some?
    ensures |builder.BodyBytes()| == builder.paddedBodyLen.value
  {
    var pad := builder.paddedBodyLen.value - builder.FixedLen();
    ExtensionsSnoc(builder.PlainExtensions(), Other(EXTENSION_PADDING, seq(pad, _ => 0)));
    hide EncodeExtensions;
  }

  /** The handshake message around a body: type, 24-bit length, body. */
  function HandshakeOf(body: seq<byte>): seq<byte> {
    [HANDSHAKE_TYPE_CLIENT_HELLO] + U24Bytes(|body|) + body
  }

  // ----- Fragmenting ----------------------------------------------------------

  /** Pieces of `chunk` bytes, the last one possibly shorter. */
  function Chunks(message: seq<byte>, chunk: nat): (fragments: seq<Vector16>)
    requires chunk > 0 && (chunk < 0x1_0000 || |message| < 0x1_0000)
  {
    if message == [] then []
    else if |message| <= chunk then [message]
    else [message[..chunk]] + Chunks(message[chunk..], chunk)
  }

  lemma {:induction false} JoinCons(first: Vector16, others: seq<Vector16>)
    ensures Join([first] + others) == first + Join(others)
  {
    var all := [first] + others;
    if others == [] {
      assert all[..0] == [];
    } else {
      JoinCons(first, others[..|others| - 1]);
      assert all[..|all| - 1] == [first] + others[..|others| - 1];
    }
  }

  /** Chunking loses nothing, leaves no empty piece, and uses no more pieces than it must. */
  lemma {:induction false} ChunksCover(message: seq<byte>, chunk: nat)
    requires chunk > 0 && (chunk < 0x1_0000 || |message| < 0x1_0000)
    ensures Join(Chunks(message, chunk)) == message
    ensures forall i :: 0 <= i < |Chunks(message, chunk)| ==> 1 <= |Chunks(message, chunk)[i]| <= chunk
    ensures |Chunks(message, chunk)| * chunk < |message| + chunk
    decreases |message|
  {
    if message != [] {
      if |message| <= chunk {
        JoinCons(message, []);
        var one: seq<Vector16> := [message];
        assert one + [] == one;
      } else {
        JoinCons(message[..chunk], Chunks(message[chunk..], chunk));
        ChunksCover(message[chunk..], chunk);
      }
    }
  }

  lemma FirstChunk(s: seq<byte>, chunk: nat)
    requires chunk > 0 && s != [] && (chunk < 0x1_0000 || |s| < 0x1_0000)
    ensures var size := if |s| <= chunk then |s| else chunk;
            Chunks(s, chunk) == [s[..size]] + Chunks(s[size..], chunk)
  {
    if |s| <= chunk {
      assert s[..|s|] == s && s[|s|..] == [];
      assert Chunks(s[|s|..], chunk) == [];
    }
  }

  lemma ChunkAt(message: seq<byte>, chunk: nat, start: nat, end: nat)
    requires chunk > 0 && (chunk < 0x1_0000 || |message| < 0x1_0000) && start < |message|
    requires end == if start + chunk <= |message| then start + chunk else |message|
    ensures Chunks(message[start..], chunk) == [message[start..end]] + Chunks(message[end..], chunk)
  {
    FirstChunk(message[start..], chunk);
    assert message[start..][end - start..] == message[end..];
    assert message[start..][..end - start] == message[start..end];
  }

  lemma FragmentsSnoc(fragments: seq<Vector16>, last: Vector16)
    ensures EncodeFragments(fragments + [last]) == EncodeFragments(fragments) + EncodeFragment(last)
  {
    assert (fragments + [last])[..|fragments|] == fragments;
  }

  method RecordsOf(handshake: seq<byte>, chunk: nat) returns (wire: seq<byte>)
    requires chunk > 0 && (chunk < 0x1_0000 || |handshake| < 0x1_0000)
    ensures wire == EncodeFragments(Chunks(handshake, chunk))
  {
    assert EncodeFragments([]) == [] && Chunks([], chunk) == [];
    hide Chunks, EncodeFragments, EncodeFragment;
    wire := [];
    var start := 0;
    ghost var done: seq<Vector16> := [];
    assert handshake[0..] == handshake;
    while start < |handshake|
      invariant 0 <= start <= |handshake|
      invariant Chunks(handshake, chunk) == done + Chunks(handshake[start..], chunk)
      invariant wire == EncodeFragments(done)
    {
      var end := if start + chunk <= |handshake| then start + chunk else |handshake|;
      ChunkAt(handshake, chunk, start, end);
      FragmentsSnoc(done, handshake[start..end]);
      wire := PushRecord(wire, handshake[start..end]);
      done := done + [handshake[start..end]];
      start := end;
    }
    assert handshake[start..] == [];
    assert done + [] == done;
  }

  predicate AreSplits(points: seq<nat>, len: nat) {
    forall i, j :: 0 <= i <= j < |points| ==> points[i] <= points[j] <= len
  }

  /** The pieces between consecutive split points. */
  function Pieces(message: seq<byte>, splits: seq<nat>): (fragments: seq<seq<byte>>)
    requires AreSplits(splits, |message|)
  {
    if splits == [] then []
    else
      var start := if |splits| == 1 then 0 else splits[|splits| - 2];
      Pieces(message, splits[..|splits| - 1]) + [message[start..splits[|splits| - 1]]]
  }

  lemma {:induction false} JoinPieces(message: seq<byte>, splits: seq<nat>, fragments: seq<Vector16>)
    requires AreSplits(splits, |message|)
    requires fragments == Pieces(message, splits)
    ensures Join(fragments) == message[..if splits == [] then 0 else splits[|splits| - 1]]
  {
    if splits != [] {
      var front := splits[..|splits| - 1];
      assert fragments[..|fragments| - 1] == Pieces(message, front);
      JoinPieces(message, front, fragments[..|fragments| - 1]);
    }
  }

  lemma FrontsAreSplits(points: seq<nat>, len: nat, i: nat)
    requires AreSplits(points, len) && i < |points|
    ensures AreSplits(points[..i], len) && AreSplits(points[..i + 1], len)
    ensures (if i == 0 then 0 else points[i - 1]) <= points[i] <= len
  {
  }

  /** The next piece comes after the earlier ones, and is one of all. */
  lemma {:induction false} NextPiece(message: seq<byte>, points: seq<nat>, i: nat)
    requires AreSplits(points, |message|)
    requires i < |points|
    ensures var piece := message[if i == 0 then 0 else points[i - 1]..points[i]];
            && piece in Pieces(message, points)
            && Pieces(message, points[..i + 1]) == Pieces(message, points[..i]) + [piece]
  {
    assert points[..i + 1][..i] == points[..i];
    if i < |points| - 1 {
      var front := points[..|points| - 1];
      NextPiece(message, front, i);
      assert front[..i + 1] == points[..i + 1] && front[..i] == points[..i];
    } else {
      assert points[..i + 1] == points;
    }
  }

  method RecordsFromSplits(handshake: seq<byte>, splits: seq<nat>) returns (wire: seq<byte>)
    requires AreSplits(splits + [|handshake|], |handshake|)
    requires forall piece :: piece in Pieces(handshake, splits + [|handshake|]) ==> |piece| < 0x1_0000
    ensures wire == EncodeFragments(Pieces(handshake, splits + [|handshake|]))
  {
    assert EncodeFragments([]) == [] && Pieces(handshake, []) == [];
    hide EncodeFragments, EncodeFragment, Join, Pieces, AreSplits;
    wire := [];
    ghost var fragments: seq<Vector16> := [];
    var start := 0;
    var points := splits + [|handshake|];
    for i := 0 to |points|
      invariant start == if i == 0 then 0 else points[i - 1]
      invariant AreSplits(points[..i], |handshake|)
      invariant fragments == Pieces(handshake, points[..i])
      invariant wire == EncodeFragments(fragments)
    {
      FrontsAreSplits(points, |handshake|, i);
      NextPiece(handshake, points, i);
      FragmentsSnoc(fragments, handshake[start..points[i]]);
      wire := PushRecord(wire, handshake[start..points[i]]);
      fragments := fragments + [handshake[start..points[i]]];
      start := points[i];
    }
    assert points[..|points|] == points;
  }

  /** However it is split, the pieces are the message. */
  lemma PiecesCover(message: seq<byte>, splits: seq<nat>, fragments: seq<Vector16>)
    requires AreSplits(splits + [|message|], |message|)
    requires fragments == Pieces(message, splits + [|message|])
    ensures Join(fragments) == message
  {
    JoinPieces(message, splits + [|message|], fragments);
  }

  // ----- Round trip -------------------------------------------------------------

  function AsRecords(fragments: seq<Vector16>): seq<Record> {
    seq(|fragments|, i requires 0 <= i < |fragments| => Record(0x01, fragments[i]))
  }

  lemma {:induction false} WireSnoc(records: seq<Record>, last: Record)
    requires AreRecords(records) && IsRecord(last)
    ensures AreRecords(records + [last])
    ensures Wire(records + [last]) == Wire(records) + EncodeRecord(last)
    ensures Payload(records + [last]) == Payload(records) + last.payload
  {
    var all := records + [last];
    if records == [] {
      assert all[1..] == [];
    } else {
      WireSnoc(records[1..], last);
      assert all[1..] == records[1..] + [last];
    }
  }

  lemma FragmentIsRecord(fragment: Vector16)
    requires 1 <= |fragment| <= MAX_RECORD_PAYLOAD
    ensures EncodeRecord(Record(0x01, fragment)) == EncodeFragment(fragment)
  {
  }

  lemma {:induction false} FragmentsAreRecords(fragments: seq<Vector16>)
    requires forall i :: 0 <= i < |fragments| ==> 1 <= |fragments[i]| <= MAX_RECORD_PAYLOAD
    ensures AreRecords(AsRecords(fragments))
    ensures Wire(AsRecords(fragments)) == EncodeFragments(fragments)
    ensures Payload(AsRecords(fragments)) == Join(fragments)
  {
    hide EncodeRecord, EncodeFragment;
    if fragments != [] {
      var front, last := fragments[..|fragments| - 1], fragments[|fragments| - 1];
      FragmentsAreRecords(front);
      FragmentIsRecord(last);
      assert AsRecords(fragments) == AsRecords(front) + [Record(0x01, last)];
      WireSnoc(AsRecords(front), Record(0x01, last));
    }
  }

  /**
   Print then parse: a well-formed hello, cut into any pieces the limits allow and
   followed by anything, parses to the name it carries, consuming exactly the pieces.
   */
  lemma PrintedHelloParses(hello: ClientHello, fragments: seq<Vector16>, tail: seq<byte>, limits: HelloLimits)
    requires WellFormed(hello)
    requires |EncodeHello(hello)| <= limits.maxHandshakeBytes && |EncodeHello(hello)| < 0x100_0000
    requires forall i :: 0 <= i < |fragments| ==> 1 <= |fragments[i]| <= MAX_RECORD_PAYLOAD
    requires |fragments| <= limits.maxRecords
    requires Join(fragments) == HandshakeOf(EncodeHello(hello))
    ensures ParseHello(EncodeFragments(fragments) + tail, limits)
            == Success(ClientHelloInfo(SniOf(hello), |EncodeFragments(fragments)|))
  {
    hide ParseHello, ParseBody, EncodeHello;
    FragmentsAreRecords(fragments);
    SplitMessageIsCarried(AsRecords(fragments), EncodeHello(hello), limits);
    FragmentsReassemble(AsRecords(fragments), tail, limits);
    HelloAccepted(hello);
  }

  /** The same of what `Build` gives, in as many records as its size needs. */
  lemma BuiltHelloParses(builder: ClientHelloBuilder, tail: seq<byte>, limits: HelloLimits)
    requires builder.Builds() && builder.legacyVersion / 0x100 == 3 && builder.trailingBodyBytes == []
    requires WellFormed(builder.AsHello())
    requires |builder.BodyBytes()| <= limits.maxHandshakeBytes && |builder.BodyBytes()| < 0x100_0000
    requires HANDSHAKE_HEADER_LEN + |builder.BodyBytes()| <= limits.maxRecords * MAX_RECORD_PAYLOAD
    ensures var wire := EncodeFragments(Chunks(HandshakeOf(builder.BodyBytes()), MAX_RECORD_PAYLOAD));
            ParseHello(wire + tail, limits) == Success(ClientHelloInfo(SniOf(builder.AsHello()), |wire|))
  {
    hide ParseHello, EncodeHello, EncodeFragments, Join;
    BodyIsTheHello(builder);
    var handshake := HandshakeOf(builder.BodyBytes());
    ChunksCover(handshake, MAX_RECORD_PAYLOAD);
    PrintedHelloParses(builder.AsHello(), Chunks(handshake, MAX_RECORD_PAYLOAD), tail, limits);
  }

  /** A builder given a valid name prints a hello that carries that name lowercased. */
  lemma BuiltNameIsCarried(builder: ClientHelloBuilder, name: Vector16)
    requires ParseHostname(name).Success?
    requires builder.WithSni(name).Builds() && !builder.omitExtensions
    requires WellFormed(builder.WithSni(name).AsHello())
    ensures SniOf(builder.WithSni(name).AsHello()) == Some(Hostname(Lower(name)))
  {
    var named := builder.WithSni(name);
    var names := [ServerName(NAME_TYPE_HOST_NAME, name)];
    assert named.PlainExtensions()[0] == ServerNames(names);
    assert ServerNames(names) in named.AsHello().extensions.value;
    assert IsHostName(names[0]);
    SniIsTheHostName(named.AsHello(), Hostname(Lower(name)));
  }
}
