/**
 The PIN pairing handshake. The cryptographic primitives are parameters of which only their laws
 are used; hex, XML and the ECB loop are the real ones. The host is any function from the requests
 sent so far to a reply, so a statement about every host is a statement about every adversary.
 */
module Pairing {
  import opened Bytes
  import opened Wrappers
  import opened Text

  type Cert = seq<byte>
  type PrivateKey = seq<byte>

  /** What OpenSSL provides. */
  datatype Crypto = Crypto(
    sha256: seq<byte> -> seq<byte>,
    encryptBlock: (seq<byte>, seq<byte>) -> seq<byte>,
    decryptBlock: (seq<byte>, seq<byte>) -> seq<byte>,
    parseCert: seq<byte> -> Option<Cert>,
    certSignature: Cert -> seq<byte>,
    sign: (PrivateKey, seq<byte>) -> seq<byte>,
    verify: (Cert, seq<byte>, seq<byte>) -> Option<bool>)

  /** SHA-256 digests are 32 bytes; AES-128 maps 16-byte blocks to 16-byte blocks and can be undone. */
  ghost predicate Laws(c: Crypto) {
    && (forall m :: |c.sha256(m)| == 32)
    && (forall k, b :: |b| == 16 ==> |c.encryptBlock(k, b)| == 16)
    && (forall k, b :: |b| == 16 ==> c.decryptBlock(k, c.encryptBlock(k, b)) == b)
  }

  /** A certificate and its RSA-2048 key: signatures are 256 bytes and verify. */
  ghost predicate KeyPair(c: Crypto, cert: Cert, key: PrivateKey) {
    forall m :: |c.sign(key, m)| == 256 && c.verify(cert, m, c.sign(key, m)) == Some(true)
  }

  // ---- AES-128-ECB without padding ----

  function EcbBlocks(f: seq<byte> -> seq<byte>, data: seq<byte>): seq<byte> {
    if |data| < 16 then [] else f(data[..16]) + EcbBlocks(f, data[16..])
  }

  /** `aes_ecb(Mode::Encrypt, …)`; data that is not block-aligned is refused. */
  function Encrypt(c: Crypto, key: seq<byte>, data: seq<byte>): Option<seq<byte>> {
    if |data| % 16 != 0 then None else Some(EcbBlocks(b => c.encryptBlock(key, b), data))
  }

  /** `aes_ecb(Mode::Decrypt, …)` */
  function Decrypt(c: Crypto, key: seq<byte>, data: seq<byte>): Option<seq<byte>> {
    if |data| % 16 != 0 then None else Some(EcbBlocks(b => c.decryptBlock(key, b), data))
  }

  lemma {:induction false} EcbInverse(f: seq<byte> -> seq<byte>, g: seq<byte> -> seq<byte>, data: seq<byte>)
    requires |data| % 16 == 0
    requires forall b :: |b| == 16 ==> |f(b)| == 16 && g(f(b)) == b
    ensures |EcbBlocks(f, data)| == |data| && EcbBlocks(g, EcbBlocks(f, data)) == data
  {
    if data == [] {
    } else {
      var head, tail := data[..16], data[16..];
      EcbInverse(f, g, tail);
      EcbStep(f, head, tail);
      EcbStep(g, f(head), EcbBlocks(f, tail));
      assert data == head + tail;
    }
  }

  lemma EcbStep(f: seq<byte> -> seq<byte>, head: seq<byte>, tail: seq<byte>)
    requires |head| == 16
    ensures EcbBlocks(f, head + tail) == f(head) + EcbBlocks(f, tail)
  {
    assert (head + tail)[..16] == head && (head + tail)[16..] == tail;
  }

  /** Each block of the result is the image of the block at the same place. */
  lemma {:induction false} EcbAt(f: seq<byte> -> seq<byte>, data: seq<byte>, i: nat)
    requires 16 * i + 16 <= |data| && forall b :: |b| == 16 ==> |f(b)| == 16
    ensures 16 * i + 16 <= |EcbBlocks(f, data)|
    ensures EcbBlocks(f, data)[16 * i..16 * i + 16] == f(data[16 * i..16 * i + 16])
  {
    var tail := data[16..];
    if i == 0 {
    } else {
      EcbAt(f, tail, i - 1);
      SliceBehind(f(data[..16]), EcbBlocks(f, tail), 16 * (i - 1));
      assert tail[16 * (i - 1)..16 * i] == data[16 * i..16 * i + 16];
    }
  }

  lemma SliceBehind(head: seq<byte>, rest: seq<byte>, k: nat)
    requires |head| == 16 && k + 16 <= |rest|
    ensures (head + rest)[k + 16..k + 32] == rest[k..k + 16]
  {
  }

  /** Decryption undoes encryption on any block-aligned data, and nothing else encrypts. */
  lemma DecryptInverse(c: Crypto, key: seq<byte>, data: seq<byte>)
    requires Laws(c)
    ensures Encrypt(c, key, data).Some? <==> |data| % 16 == 0
    ensures |data| % 16 == 0 ==> |Encrypt(c, key, data).value| == |data|
    ensures |data| % 16 == 0 ==> Decrypt(c, key, Encrypt(c, key, data).value) == Some(data)
  {
    if |data| % 16 == 0 {
      EcbInverse(b => c.encryptBlock(key, b), b => c.decryptBlock(key, b), data);
    }
  }

  /** `derive_aes_key`: the first 16 bytes of SHA-256(salt ++ PIN). */
  function DeriveKey(c: Crypto, salt: seq<byte>, pin: seq<byte>): (k: seq<byte>)
    requires Laws(c)
    ensures |k| == 16
  {
    c.sha256(salt + pin)[..16]
  }

  // ---- requests and replies ----

  datatype Request =
    | GetServerCert(salt: string, clientCert: string)
    | ClientChallenge(data: string)
    | ServerChallengeResp(data: string)
    | ClientPairingSecret(data: string)

  function Phase(r: Request): nat {
    match r
    case GetServerCert(_, _) => 1
    case ClientChallenge(_) => 2
    case ServerChallengeResp(_) => 3
    case ClientPairingSecret(_) => 4
  }

  /** A body, or a transport error. The host's whole behaviour is its reply to each history of requests. */
  type Host = seq<Request> -> Option<string>

  const STATUS_OK := "status_code=\"200\""

  /** `pair_req`: a body without the success marker is an error. */
  function Reply(host: Host, sent: seq<Request>): (r: Outcome<string>)
    ensures !r.Panic?
  {
    match host(sent)
    case None => Err
    case Some(body) => if Find(body, STATUS_OK).Some? then Ok(body) else Err
  }

  /** A body gets through exactly if it holds status_code="200". */
  lemma ReplyNeeds200(host: Host, sent: seq<Request>)
    ensures Reply(host, sent).Ok? <==> host(sent).Some? && Contains(host(sent).value, "status_code=\"200\"")
    ensures Reply(host, sent).Ok? ==> Reply(host, sent).value == host(sent).value
  {
    if host(sent).Some? {
      FindIsFirst(host(sent).value, STATUS_OK);
      if Find(host(sent).value, STATUS_OK).Some? {
        assert Occurs(host(sent).value, "status_code=\"200\"", Find(host(sent).value, STATUS_OK).value);
      }
    }
  }

  predicate SaysPaired(body: string) {
    var t := XmlTag(body, "paired");
    t.Some? && Trim(t.value) == "1"
  }

  function HexField(body: string, tag: string): Outcome<seq<byte>> {
    match XmlTag(body, tag)
    case None => Err
    case Some(s) => FromHex(s)
  }

  /** Phase 1: the server's certificate. */
  function ReadServerCert(c: Crypto, body: string): Outcome<Cert> {
    if !SaysPaired(body) then Err
    else match HexField(body, "plaincert")
      case Ok(pem) => (match c.parseCert(pem) case Some(cert) => Ok(cert) case None => Err)
      case Err => Err
      case Panic => Panic
  }

  /** Phase 2: the server's response hash and its challenge. */
  function ReadChallenge(c: Crypto, key: seq<byte>, body: string): (r: Outcome<(seq<byte>, seq<byte>)>)
    ensures r.Ok? ==> |r.value.0| == 32 && |r.value.1| == 16
  {
    match HexField(body, "challengeresponse")
    case Ok(enc) =>
      (match Decrypt(c, key, enc)
       case None => Err
       case Some(resp) => if |resp| < 48 then Err else Ok((resp[..32], resp[32..48])))
    case Err => Err
    case Panic => Panic
  }

  /** Phase 3: the server's secret and its signature over it. */
  function ReadSecret(body: string): (r: Outcome<(seq<byte>, seq<byte>)>)
    ensures r.Ok? ==> |r.value.0| == 16 && |r.value.1| == 256
  {
    match HexField(body, "pairingsecret")
    case Ok(s) => if |s| < 16 + 256 then Err else Ok((s[..16], s[16..16 + 256]))
    case Err => Err
    case Panic => Panic
  }

  /** The client's persistent identity; `certificate()` and `private_key()` parse PEM and may fail. */
  datatype Identity = Identity(certHex: string, cert: Option<Cert>, key: Option<PrivateKey>)

  /** Everything `pair` is given: its arguments, the identity, and the two `rand16` results. */
  datatype Client = Client(id: Identity, salt: seq<byte>, key: seq<byte>,
                           challenge: Option<seq<byte>>, secret: Option<seq<byte>>)

  /** The check that the host knew the PIN, and that it holds its certificate's key. */
  predicate ServerProven(c: Crypto, challenge: seq<byte>, cert: Cert, response: seq<byte>,
                         secret: seq<byte>, signature: seq<byte>) {
    && c.sha256(challenge + c.certSignature(cert) + secret) == response
    && c.verify(cert, secret, signature) == Some(true)
  }

  // ---- the handshake as a function of the host's replies ----

  datatype Result = Result(outcome: Outcome<()>, sent: seq<Request>)

  /** How a failed step ends the handshake. */
  function Stop<T>(o: Outcome<T>): (r: Outcome<()>)
    requires !o.Ok?
    ensures !r.Ok?
  {
    if o.Panic? then Panic else Err
  }

  function FirstRequest(cl: Client): Request { GetServerCert(ToHex(cl.salt), cl.id.certHex) }

  function Handshake(c: Crypto, cl: Client, host: Host): Result {
    var sent := [FirstRequest(cl)];
    match Reply(host, sent)
    case Ok(body) =>
      (match ReadServerCert(c, body)
       case Ok(cert) => FromPhase2(c, cl, host, sent, cert)
       case o => Result(Stop(o), sent))
    case o => Result(Stop(o), sent)
  }

  function FromPhase2(c: Crypto, cl: Client, host: Host, before: seq<Request>, cert: Cert): Result {
    if cl.challenge.None? || Encrypt(c, cl.key, cl.challenge.value).None? then Result(Err, before)
    else
      var sent := before + [ClientChallenge(ToHex(Encrypt(c, cl.key, cl.challenge.value).value))];
      match Reply(host, sent)
      case Ok(body) =>
        (match ReadChallenge(c, cl.key, body)
         case Ok((response, challenge)) => FromPhase3(c, cl, host, sent, cert, response, challenge)
         case o => Result(Stop(o), sent))
      case o => Result(Stop(o), sent)
  }

  /** The client's answer to the server's challenge, before encryption. */
  function Answer(c: Crypto, serverChallenge: seq<byte>, clientCert: Cert, clientSecret: seq<byte>): seq<byte> {
    c.sha256(serverChallenge + c.certSignature(clientCert) + clientSecret)
  }

  function FromPhase3(c: Crypto, cl: Client, host: Host, before: seq<Request>, cert: Cert,
                      response: seq<byte>, challenge: seq<byte>): Result
    requires cl.challenge.Some?
  {
    if cl.id.cert.None? || cl.secret.None? then Result(Err, before)
    else
      var enc := Encrypt(c, cl.key, Answer(c, challenge, cl.id.cert.value, cl.secret.value));
      if enc.None? then Result(Err, before)
      else
        var sent := before + [ServerChallengeResp(ToHex(enc.value))];
        match Reply(host, sent)
        case Ok(body) =>
          (match ReadSecret(body)
           case Ok((secret, signature)) =>
             if ServerProven(c, cl.challenge.value, cert, response, secret, signature)
             then FromPhase4(c, cl, host, sent)
             else Result(Err, sent)
           case o => Result(Stop(o), sent))
        case o => Result(Stop(o), sent)
  }

  function FromPhase4(c: Crypto, cl: Client, host: Host, before: seq<Request>): Result
    requires cl.secret.Some?
  {
    if cl.id.key.None? then Result(Err, before)
    else
      var sig := c.sign(cl.id.key.value, cl.secret.value);
      var sent := before + [ClientPairingSecret(ToHex(cl.secret.value + sig))];
      match Reply(host, sent)
      case Ok(body) => Result(if SaysPaired(body) then Ok(()) else Err, sent)
      case o => Result(Stop(o), sent)
  }

  // ---- against any host ----

  predicate PhasesInOrder(sent: seq<Request>) {
    && 1 <= |sent| <= 4
    && Phase(sent[0]) == 1
    && (|sent| >= 2 ==> Phase(sent[1]) == 2)
    && (|sent| >= 3 ==> Phase(sent[2]) == 3)
    && (|sent| >= 4 ==> Phase(sent[3]) == 4)
  }

  lemma Phase4Safe(c: Crypto, cl: Client, host: Host, before: seq<Request>)
    requires cl.secret.Some?
    ensures var r := FromPhase4(c, cl, host, before);
            || (r.sent == before && !r.outcome.Ok?)
            || (&& |r.sent| == |before| + 1 && r.sent[..|before|] == before && Phase(r.sent[|before|]) == 4
                && (r.outcome.Ok? <==> Reply(host, r.sent).Ok? && SaysPaired(Reply(host, r.sent).value)))
  {
  }

  lemma Phase3Safe(c: Crypto, cl: Client, host: Host, before: seq<Request>, cert: Cert,
                   response: seq<byte>, challenge: seq<byte>)
    requires cl.challenge.Some? && |before| == 2
    ensures var r := FromPhase3(c, cl, host, before, cert, response, challenge);
            && 2 <= |r.sent| <= 4 && r.sent[..2] == before
            && (|r.sent| < 4 ==> !r.outcome.Ok?)
            && (|r.sent| >= 3 ==> Phase(r.sent[2]) == 3)
            && (|r.sent| == 4 ==>
                 var secret := Reply(host, r.sent[..3]);
                 && secret.Ok? && ReadSecret(secret.value).Ok?
                 && ServerProven(c, cl.challenge.value, cert, response,
                                 ReadSecret(secret.value).value.0, ReadSecret(secret.value).value.1)
                 && Phase(r.sent[3]) == 4
                 && (r.outcome.Ok? <==> Reply(host, r.sent).Ok? && SaysPaired(Reply(host, r.sent).value)))
  {
    if cl.id.cert.Some? && cl.secret.Some? {
      var enc := Encrypt(c, cl.key, Answer(c, challenge, cl.id.cert.value, cl.secret.value));
      if enc.Some? {
        Phase4Safe(c, cl, host, before + [ServerChallengeResp(ToHex(enc.value))]);
      }
    }
  }

  lemma Phase2Safe(c: Crypto, cl: Client, host: Host, before: seq<Request>, cert: Cert)
    requires |before| == 1
    ensures var r := FromPhase2(c, cl, host, before, cert);
            && 1 <= |r.sent| <= 4 && r.sent[..1] == before
            && (|r.sent| < 4 ==> !r.outcome.Ok?)
            && (|r.sent| >= 2 ==> cl.challenge.Some? && Phase(r.sent[1]) == 2)
            && (|r.sent| >= 3 ==>
                 && Phase(r.sent[2]) == 3
                 && Reply(host, r.sent[..2]).Ok?
                 && ReadChallenge(c, cl.key, Reply(host, r.sent[..2]).value).Ok?)
            && (|r.sent| == 4 ==>
                 var secret := Reply(host, r.sent[..3]);
                 && secret.Ok? && ReadSecret(secret.value).Ok?
                 && ServerProven(c, cl.challenge.value, cert,
                                 ReadChallenge(c, cl.key, Reply(host, r.sent[..2]).value).value.0,
                                 ReadSecret(secret.value).value.0, ReadSecret(secret.value).value.1)
                 && Phase(r.sent[3]) == 4
                 && (r.outcome.Ok? <==> Reply(host, r.sent).Ok? && SaysPaired(Reply(host, r.sent).value)))
  {
    if cl.challenge.Some? && Encrypt(c, cl.key, cl.challenge.value).Some? {
      var sent := before + [ClientChallenge(ToHex(Encrypt(c, cl.key, cl.challenge.value).value))];
      assert sent[..1] == before;
      var body := Reply(host, sent);
      if body.Ok? && ReadChallenge(c, cl.key, body.value).Ok? {
        var (response, challenge) := ReadChallenge(c, cl.key, body.value).value;
        Phase3Safe(c, cl, host, sent, cert, response, challenge);
        var r := FromPhase3(c, cl, host, sent, cert, response, challenge);
        assert r.sent[..1] == r.sent[..2][..1];
      }
    }
  }

  /** Whatever the host answers, the requests are a prefix of the four phases, in order. */
  lemma RequestsInOrder(c: Crypto, cl: Client, host: Host)
    ensures PhasesInOrder(Handshake(c, cl, host).sent)
  {
    var sent := [FirstRequest(cl)];
    var body := Reply(host, sent);
    if body.Ok? && ReadServerCert(c, body.value).Ok? {
      var cert := ReadServerCert(c, body.value).value;
      Phase2Safe(c, cl, host, sent, cert);
      assert FromPhase2(c, cl, host, sent, cert).sent[0] == sent[0];
    }
  }

  /**
   What the three replies must hold for the client to go on, written out: a certificate, a decrypted
   response that is the hash of the client's challenge, the certificate's signature and the server's
   secret, and that secret's signature, which the certificate verifies.
   */
  predicate RepliesProve(c: Crypto, key: seq<byte>, challenge: seq<byte>, b1: string, b2: string, b3: string) {
    var cert, resp, secret := XmlTag(b1, "plaincert"), XmlTag(b2, "challengeresponse"), XmlTag(b3, "pairingsecret");
    && cert.Some? && FromHex(cert.value).Ok? && c.parseCert(FromHex(cert.value).value).Some?
    && resp.Some? && FromHex(resp.value).Ok? && Decrypt(c, key, FromHex(resp.value).value).Some?
    && secret.Some? && FromHex(secret.value).Ok?
    && var parsed := c.parseCert(FromHex(cert.value).value).value;
       var plain, s := Decrypt(c, key, FromHex(resp.value).value).value, FromHex(secret.value).value;
       && |plain| >= 48 && |s| >= 272
       && c.sha256(challenge + c.certSignature(parsed) + s[..16]) == plain[..32]
       && c.verify(parsed, s[..16], s[16..272]) == Some(true)
  }

  /**
   Whatever the host answers: the client's own secret leaves only after the server has proved
   itself, by its own replies.
   */
  lemma SecretOnlyAfterProof(c: Crypto, cl: Client, host: Host)
    ensures var r := Handshake(c, cl, host);
            |r.sent| == 4 ==>
              && Reply(host, r.sent[..1]).Ok? && Reply(host, r.sent[..2]).Ok? && Reply(host, r.sent[..3]).Ok?
              && cl.challenge.Some?
              && RepliesProve(c, cl.key, cl.challenge.value, Reply(host, r.sent[..1]).value,
                              Reply(host, r.sent[..2]).value, Reply(host, r.sent[..3]).value)
  {
    var sent := [FirstRequest(cl)];
    var body := Reply(host, sent);
    if body.Ok? && ReadServerCert(c, body.value).Ok? {
      var cert := ReadServerCert(c, body.value).value;
      Phase2Safe(c, cl, host, sent, cert);
      var r := Handshake(c, cl, host);
      if |r.sent| == 4 {
        assert r.sent[..1] == sent;
        ProvenIsWrittenOut(c, cl, Reply(host, r.sent[..1]).value, Reply(host, r.sent[..2]).value,
                           Reply(host, r.sent[..3]).value);
      }
    }
  }

  lemma ProvenIsWrittenOut(c: Crypto, cl: Client, b1: string, b2: string, b3: string)
    requires cl.challenge.Some? && ReadServerCert(c, b1).Ok? && ReadChallenge(c, cl.key, b2).Ok? && ReadSecret(b3).Ok?
    requires ServerProven(c, cl.challenge.value, ReadServerCert(c, b1).value, ReadChallenge(c, cl.key, b2).value.0,
                          ReadSecret(b3).value.0, ReadSecret(b3).value.1)
    ensures RepliesProve(c, cl.key, cl.challenge.value, b1, b2, b3)
  {
  }

  /** Success means that all four requests were sent, and that at both ends the host said `paired` is 1. */
  lemma SuccessNeedsBothEnds(c: Crypto, cl: Client, host: Host)
    ensures var r := Handshake(c, cl, host);
            && (r.outcome.Ok? ==> |r.sent| == 4)
            && (|r.sent| == 4 ==>
                  && Reply(host, r.sent[..1]).Ok?
                  && var first := XmlTag(Reply(host, r.sent[..1]).value, "paired");
                     first.Some? && Trim(first.value) == "1")
            && (|r.sent| == 4 ==>
                  (r.outcome.Ok? <==>
                     && Reply(host, r.sent).Ok?
                     && var last := XmlTag(Reply(host, r.sent).value, "paired");
                        last.Some? && Trim(last.value) == "1"))
  {
    var sent := [FirstRequest(cl)];
    var body := Reply(host, sent);
    if body.Ok? && ReadServerCert(c, body.value).Ok? {
      Phase2Safe(c, cl, host, sent, ReadServerCert(c, body.value).value);
      assert |Handshake(c, cl, host).sent| == 4 ==> Handshake(c, cl, host).sent[..1] == sent;
    }
  }

  // ---- when the handshake unwinds ----

  /** The tag whose hex each phase reads. */
  function HexTag(phase: nat): string {
    if phase == 1 then "plaincert" else if phase == 2 then "challengeresponse" else "pairingsecret"
  }

  /** The last reply carries a hex field that `from_hex` unwinds on, and the phase gets as far as reading it. */
  predicate LastReplyBreaks(host: Host, sent: seq<Request>) {
    && 1 <= |sent| <= 3
    && Reply(host, sent).Ok?
    && (|sent| == 1 ==> SaysPaired(Reply(host, sent).value))
    && HexField(Reply(host, sent).value, HexTag(|sent|)).Panic?
  }

  lemma Phase4Unwinds(c: Crypto, cl: Client, host: Host, before: seq<Request>)
    requires cl.secret.Some? && |before| == 3 && !LastReplyBreaks(host, before)
    ensures var r := FromPhase4(c, cl, host, before);
            !r.outcome.Panic? && !LastReplyBreaks(host, r.sent)
  {
  }

  lemma Phase3Unwinds(c: Crypto, cl: Client, host: Host, before: seq<Request>, cert: Cert,
                      response: seq<byte>, challenge: seq<byte>)
    requires cl.challenge.Some? && |before| == 2 && !LastReplyBreaks(host, before)
    ensures var r := FromPhase3(c, cl, host, before, cert, response, challenge);
            r.outcome.Panic? <==> LastReplyBreaks(host, r.sent)
  {
    if cl.id.cert.Some? && cl.secret.Some? {
      var enc := Encrypt(c, cl.key, Answer(c, challenge, cl.id.cert.value, cl.secret.value));
      if enc.Some? {
        var sent := before + [ServerChallengeResp(ToHex(enc.value))];
        assert |sent| == 3;
        if !LastReplyBreaks(host, sent) { Phase4Unwinds(c, cl, host, sent); }
      }
    }
  }

  lemma Phase2Unwinds(c: Crypto, cl: Client, host: Host, before: seq<Request>, cert: Cert)
    requires |before| == 1 && !LastReplyBreaks(host, before)
    ensures var r := FromPhase2(c, cl, host, before, cert);
            r.outcome.Panic? <==> LastReplyBreaks(host, r.sent)
  {
    if cl.challenge.Some? && Encrypt(c, cl.key, cl.challenge.value).Some? {
      var sent := before + [ClientChallenge(ToHex(Encrypt(c, cl.key, cl.challenge.value).value))];
      assert |sent| == 2;
      var body := Reply(host, sent);
      if body.Ok? && ReadChallenge(c, cl.key, body.value).Ok? {
        var (response, challenge) := ReadChallenge(c, cl.key, body.value).value;
        Phase3Unwinds(c, cl, host, sent, cert, response, challenge);
      }
    }
  }

  /** Exactly when `pair` unwinds instead of returning: when the last reply breaks the hex decoder. */
  lemma HandshakeUnwindsIff(c: Crypto, cl: Client, host: Host)
    ensures var r := Handshake(c, cl, host);
            r.outcome.Panic? <==> LastReplyBreaks(host, r.sent)
  {
    var sent := [FirstRequest(cl)];
    var body := Reply(host, sent);
    if body.Ok? && ReadServerCert(c, body.value).Ok? {
      Phase2Unwinds(c, cl, host, sent, ReadServerCert(c, body.value).value);
    }
  }

  ghost predicate AsciiHost(host: Host) {
    forall sent :: host(sent).Some? ==> IsAscii(host(sent).value)
  }

  lemma TagOfAscii(body: string, tag: string)
    requires IsAscii(body)
    ensures XmlTag(body, tag).Some? ==> IsAscii(XmlTag(body, tag).value)
  {
    FindIsFirst(body, Open(tag));
    if Find(body, Open(tag)).Some? {
      var i := Find(body, Open(tag)).value + |Open(tag)|;
      var rest := body[i..];
      FindIsFirst(rest, Close(tag));
      assert forall j :: 0 <= j < |rest| ==> rest[j] == body[i + j];
      if XmlTag(body, tag).Some? {
        var value := XmlTag(body, tag).value;
        assert forall j :: 0 <= j < |value| ==> value[j] == rest[j];
      }
    }
  }

  /** A host that answers in ASCII cannot make any client unwind. */
  lemma AsciiHostNeverUnwinds(c: Crypto, cl: Client, host: Host)
    requires AsciiHost(host)
    ensures !Handshake(c, cl, host).outcome.Panic?
  {
    HandshakeUnwindsIff(c, cl, host);
    var sent := Handshake(c, cl, host).sent;
    if Reply(host, sent).Ok? {
      var body, tag := Reply(host, sent).value, HexTag(|sent|);
      TagOfAscii(body, tag);
      if XmlTag(body, tag).Some? { AsciiNeverUnwinds(XmlTag(body, tag).value); }
    }
  }

  // ---- against an honest host ----

  /** The host's side: the PIN its user typed, its certificate and key, and its two secrets. */
  datatype Server = Server(pin: seq<byte>, pem: seq<byte>, cert: Cert, key: PrivateKey,
                           secret: seq<byte>, challenge: seq<byte>)

  ghost predicate ValidServer(c: Crypto, s: Server) {
    && c.parseCert(s.pem) == Some(s.cert) && KeyPair(c, s.cert, s.key)
    && |s.secret| == 16 && |s.challenge| == 16
  }

  /** The element is in the body, first of its name and well closed; the rest of the body is free. */
  ghost predicate Carries(body: string, tag: string, value: string) {
    exists pre: string, post: string ::
      && body == pre + Open(tag) + value + Close(tag) + post
      && !Contains(pre, Open(tag)) && !Contains(value, Close(tag))
  }

  lemma CarriesReads(body: string, tag: string, value: string)
    requires '<' !in tag && Carries(body, tag, value)
    ensures XmlTag(body, tag) == Some(value)
  {
    var pre, post :| body == pre + Open(tag) + value + Close(tag) + post
                     && !Contains(pre, Open(tag)) && !Contains(value, Close(tag));
    XmlTagReads(pre, tag, value, post);
  }

  ghost predicate Answers(reply: Option<string>, tag: string, value: string) {
    reply.Some? && Find(reply.value, "status_code=\"200\"").Some? && Carries(reply.value, tag, value)
  }

  /** The host derives its key from the salt it was sent and the PIN its user typed. */
  function HostKey(c: Crypto, s: Server, first: Request): seq<byte>
    requires Laws(c)
  {
    match first
    case GetServerCert(salt, _) => if FromHex(salt).Ok? then c.sha256(FromHex(salt).value + s.pin)[..16] else []
    case _ => []
  }

  /** And it takes the client's certificate from the same request. */
  function HostCert(c: Crypto, first: Request): Option<Cert> {
    match first
    case GetServerCert(_, hex) => if FromHex(hex).Ok? then c.parseCert(FromHex(hex).value) else None
    case _ => None
  }

  function HostDecrypts(c: Crypto, key: seq<byte>, data: string): Option<seq<byte>> {
    if FromHex(data).Ok? then Decrypt(c, key, FromHex(data).value) else None
  }

  /** Responder hashes in its own certificate's signature. */
  function ChallengeAnswer(c: Crypto, s: Server, clientChallenge: seq<byte>): seq<byte> {
    c.sha256(clientChallenge + c.certSignature(s.cert) + s.secret) + s.challenge
  }

  /** The host's own check of the client, on the hash of phase 3 and the secret of phase 4. */
  predicate HostAccepts(c: Crypto, s: Server, sent: seq<Request>)
    requires Laws(c) && |sent| == 4 && sent[2].ServerChallengeResp? && sent[3].ClientPairingSecret?
  {
    var key, cert := HostKey(c, s, sent[0]), HostCert(c, sent[0]);
    match FromHex(sent[3].data)
    case Ok(p) =>
      && |p| >= 16 && cert.Some?
      && HostDecrypts(c, key, sent[2].data) == Some(c.sha256(s.challenge + c.certSignature(cert.value) + p[..16]))
      && c.verify(cert.value, p[..16], p[16..]) == Some(true)
    case _ => false
  }

  /** What the protocol has the host reply to a history of requests. */
  ghost predicate HonestReply(c: Crypto, s: Server, sent: seq<Request>, reply: Option<string>)
    requires Laws(c)
  {
    && (|sent| == 1 && sent[0].GetServerCert? ==>
         Answers(reply, "paired", "1") && Answers(reply, "plaincert", ToHex(s.pem)))
    && (|sent| == 2 && sent[1].ClientChallenge? ==>
         var key := HostKey(c, s, sent[0]);
         var ch := HostDecrypts(c, key, sent[1].data);
         ch.Some? && Encrypt(c, key, ChallengeAnswer(c, s, ch.value)).Some? ==>
           Answers(reply, "challengeresponse", ToHex(Encrypt(c, key, ChallengeAnswer(c, s, ch.value)).value)))
    && (|sent| == 3 && sent[2].ServerChallengeResp? ==>
         Answers(reply, "pairingsecret", ToHex(s.secret + c.sign(s.key, s.secret))))
    && (|sent| == 4 && sent[2].ServerChallengeResp? && sent[3].ClientPairingSecret? ==>
         Answers(reply, "paired", if HostAccepts(c, s, sent) then "1" else "0"))
  }

  ghost predicate HonestHost(c: Crypto, s: Server, host: Host)
    requires Laws(c)
  {
    forall sent :: HonestReply(c, s, sent, host(sent))
  }

  /** A client and a host that belong together: one PIN, and a client certificate the host was given. */
  ghost predicate Matched(c: Crypto, cl: Client, s: Server)
    requires Laws(c)
  {
    && cl.challenge.Some? && |cl.challenge.value| == 16
    && cl.secret.Some? && |cl.secret.value| == 16
    && cl.key == DeriveKey(c, cl.salt, s.pin)
    && FromHex(cl.id.certHex).Ok? && c.parseCert(FromHex(cl.id.certHex).value) == cl.id.cert
    && cl.id.cert.Some? && cl.id.key.Some? && KeyPair(c, cl.id.cert.value, cl.id.key.value)
  }

  lemma AnswersRead(host: Host, sent: seq<Request>, tag: string, value: string)
    requires '<' !in tag && Answers(host(sent), tag, value)
    ensures Reply(host, sent).Ok? && XmlTag(Reply(host, sent).value, tag) == Some(value)
  {
    CarriesReads(host(sent).value, tag, value);
  }

  lemma AnswersHex(host: Host, sent: seq<Request>, tag: string, b: seq<byte>)
    requires '<' !in tag && Answers(host(sent), tag, ToHex(b))
    ensures Reply(host, sent).Ok? && HexField(Reply(host, sent).value, tag) == Ok(b)
  {
    AnswersRead(host, sent, tag, ToHex(b));
    HexRoundTrip(b);
  }

  lemma OneIsPaired(host: Host, sent: seq<Request>)
    requires Answers(host(sent), "paired", "1")
    ensures Reply(host, sent).Ok? && SaysPaired(Reply(host, sent).value)
  {
    AnswersRead(host, sent, "paired", "1");
    TrimIdle("1");
  }

  /** Both sides hold the same key: the salt arrives through hex, and the PIN is the user's. */
  lemma KeysAgree(c: Crypto, cl: Client, s: Server)
    requires Laws(c) && Matched(c, cl, s)
    ensures HostKey(c, s, FirstRequest(cl)) == cl.key
  {
    HexRoundTrip(cl.salt);
  }

  lemma Phase1Honest(c: Crypto, cl: Client, s: Server, host: Host)
    requires Laws(c) && ValidServer(c, s) && HonestHost(c, s, host)
    ensures var body := Reply(host, [FirstRequest(cl)]);
            body.Ok? && ReadServerCert(c, body.value) == Ok(s.cert)
  {
    var sent := [FirstRequest(cl)];
    assert HonestReply(c, s, sent, host(sent));
    OneIsPaired(host, sent);
    AnswersHex(host, sent, "plaincert", s.pem);
  }

  lemma HostReads(c: Crypto, key: seq<byte>, data: seq<byte>)
    requires Laws(c) && |data| % 16 == 0
    ensures Encrypt(c, key, data).Some?
    ensures HostDecrypts(c, key, ToHex(Encrypt(c, key, data).value)) == Some(data)
  {
    DecryptInverse(c, key, data);
    HexRoundTrip(Encrypt(c, key, data).value);
  }

  lemma Phase2Honest(c: Crypto, cl: Client, s: Server, host: Host, sent: seq<Request>)
    requires Laws(c) && ValidServer(c, s) && HonestHost(c, s, host) && Matched(c, cl, s)
    requires Encrypt(c, cl.key, cl.challenge.value).Some?
    requires sent == [FirstRequest(cl)] + [ClientChallenge(ToHex(Encrypt(c, cl.key, cl.challenge.value).value))]
    ensures var body := Reply(host, sent);
            body.Ok? && ReadChallenge(c, cl.key, body.value)
                     == Ok((c.sha256(cl.challenge.value + c.certSignature(s.cert) + s.secret), s.challenge))
  {
    assert HonestReply(c, s, sent, host(sent));
    KeysAgree(c, cl, s);
    HostReads(c, cl.key, cl.challenge.value);
    var answer := ChallengeAnswer(c, s, cl.challenge.value);
    DecryptInverse(c, cl.key, answer);
    AnswersHex(host, sent, "challengeresponse", Encrypt(c, cl.key, answer).value);
    assert answer[..32] == c.sha256(cl.challenge.value + c.certSignature(s.cert) + s.secret);
    assert answer[32..48] == s.challenge;
  }

  lemma Phase3Honest(c: Crypto, cl: Client, s: Server, host: Host, sent: seq<Request>)
    requires Laws(c) && ValidServer(c, s) && HonestHost(c, s, host)
    requires |sent| == 3 && sent[2].ServerChallengeResp?
    ensures var body := Reply(host, sent);
            body.Ok? && ReadSecret(body.value) == Ok((s.secret, c.sign(s.key, s.secret)))
  {
    assert HonestReply(c, s, sent, host(sent));
    var secret := s.secret + c.sign(s.key, s.secret);
    AnswersHex(host, sent, "pairingsecret", secret);
    assert secret[..16] == s.secret && secret[16..16 + 256] == c.sign(s.key, s.secret);
  }

  lemma Phase4Honest(c: Crypto, cl: Client, s: Server, host: Host, sent: seq<Request>)
    requires Laws(c) && ValidServer(c, s) && HonestHost(c, s, host) && Matched(c, cl, s)
    requires Encrypt(c, cl.key, Answer(c, s.challenge, cl.id.cert.value, cl.secret.value)).Some?
    requires |sent| == 4 && sent[0] == FirstRequest(cl)
    requires var answer := Answer(c, s.challenge, cl.id.cert.value, cl.secret.value);
             sent[2] == ServerChallengeResp(ToHex(Encrypt(c, cl.key, answer).value))
    requires sent[3] == ClientPairingSecret(ToHex(cl.secret.value + c.sign(cl.id.key.value, cl.secret.value)))
    ensures var body := Reply(host, sent);
            body.Ok? && SaysPaired(body.value)
  {
    assert HonestReply(c, s, sent, host(sent));
    KeysAgree(c, cl, s);
    HostReads(c, cl.key, Answer(c, s.challenge, cl.id.cert.value, cl.secret.value));
    var p := cl.secret.value + c.sign(cl.id.key.value, cl.secret.value);
    HexRoundTrip(p);
    assert p[..16] == cl.secret.value && p[16..] == c.sign(cl.id.key.value, cl.secret.value);
    OneIsPaired(host, sent);
  }

  lemma FromPhase3Honest(c: Crypto, cl: Client, s: Server, host: Host, before: seq<Request>)
    requires Laws(c) && ValidServer(c, s) && HonestHost(c, s, host) && Matched(c, cl, s)
    requires |before| == 2 && before[0] == FirstRequest(cl)
    ensures var response := c.sha256(cl.challenge.value + c.certSignature(s.cert) + s.secret);
            var r := FromPhase3(c, cl, host, before, s.cert, response, s.challenge);
            r.outcome == Ok(()) && |r.sent| == 4
  {
    var answer := Answer(c, s.challenge, cl.id.cert.value, cl.secret.value);
    DecryptInverse(c, cl.key, answer);
    var sent3 := before + [ServerChallengeResp(ToHex(Encrypt(c, cl.key, answer).value))];
    Phase3Honest(c, cl, s, host, sent3);
    var sent4 := sent3 + [ClientPairingSecret(ToHex(cl.secret.value + c.sign(cl.id.key.value, cl.secret.value)))];
    Phase4Honest(c, cl, s, host, sent4);
  }

  /** A host that follows the protocol and does not accept the client's proof brings the handshake to an error. */
  lemma HonestHostRefuses(c: Crypto, cl: Client, s: Server, host: Host)
    requires Laws(c) && HonestHost(c, s, host)
    requires var sent := Handshake(c, cl, host).sent;
             |sent| == 4 && sent[2].ServerChallengeResp? && sent[3].ClientPairingSecret? && !HostAccepts(c, s, sent)
    ensures Handshake(c, cl, host).outcome == Err
  {
    var r := Handshake(c, cl, host);
    assert HonestReply(c, s, r.sent, host(r.sent));
    AnswersRead(host, r.sent, "paired", "0");
    TrimIdle("0");
    SuccessNeedsBothEnds(c, cl, host);
    HandshakeUnwindsIff(c, cl, host);
  }

  /**
   Completeness: a host that follows the protocol, whose user typed the PIN shown, always brings
   the handshake to success, in exactly four requests, and each side's check of the other passes.
   */
  lemma HonestHostPairs(c: Crypto, cl: Client, s: Server, host: Host)
    requires Laws(c) && ValidServer(c, s) && HonestHost(c, s, host) && Matched(c, cl, s)
    ensures var r := Handshake(c, cl, host); r.outcome == Ok(()) && |r.sent| == 4
  {
    Phase1Honest(c, cl, s, host);
    DecryptInverse(c, cl.key, cl.challenge.value);
    var sent2 := [FirstRequest(cl)] + [ClientChallenge(ToHex(Encrypt(c, cl.key, cl.challenge.value).value))];
    Phase2Honest(c, cl, s, host, sent2);
    FromPhase3Honest(c, cl, s, host, sent2);
  }

  /** The laws ask nothing impossible: a toy suite meets them all. */
  lemma LawsAreConsistent() returns (c: Crypto)
    ensures Laws(c) && forall cert, key :: KeyPair(c, cert, key)
  {
    c := Crypto(m => seq(32, i => 0), (k, b) => b, (k, b) => b, pem => Some(pem), cert => cert,
                (key, m) => seq(256, i => 0), (cert, m, sig) => Some(true));
  }

  // Honest hosts exist: one whose bodies hold the fields asked for and nothing else.

  function Field(tag: string, value: string): string { Open(tag) + value + Close(tag) }

  lemma FieldAnswers(pre: string, tag: string, value: string)
    requires '<' !in tag && '<' !in value && !Contains(pre, Open(tag))
    ensures Answers(Some(pre + Field(tag, value) + STATUS_OK), tag, value)
  {
    var body := pre + Field(tag, value) + STATUS_OK;
    NoAngle(value, Close(tag));
    assert body == pre + Open(tag) + value + Close(tag) + STATUS_OK;
    FindIsFirst(body, STATUS_OK);
    assert Occurs(body, STATUS_OK, |body| - |STATUS_OK|);
  }

  lemma {:induction false} HexHasNoAngle(b: seq<byte>)
    ensures '<' !in ToHex(b)
  {
    if b == [] {
    } else {
      HexHasNoAngle(b[1..]);
    }
  }

  function FirstBody(s: Server): string { Field("paired", "1") + Field("plaincert", ToHex(s.pem)) + STATUS_OK }

  lemma PairedHoldsNoCert()
    ensures !Contains(Field("paired", "1"), Open("plaincert"))
  {
    var cert := Open("plaincert");
    OneAngle(Open("paired") + "1", cert);
    OneAngle(Close("paired"), cert);
    NoStraddle(Open("paired") + "1", Close("paired"), cert);
  }

  lemma TwoFieldsAnswer(tag1: string, value1: string, tag2: string, value2: string)
    requires '<' !in tag1 && '<' !in value1 && '<' !in tag2 && '<' !in value2
    requires !Contains(Field(tag1, value1), Open(tag2))
    ensures var body := Field(tag1, value1) + Field(tag2, value2) + STATUS_OK;
            Answers(Some(body), tag1, value1) && Answers(Some(body), tag2, value2)
  {
    var body := Field(tag1, value1) + Field(tag2, value2) + STATUS_OK;
    FieldAnswers(Field(tag1, value1), tag2, value2);
    NoAngle(value1, Close(tag1));
    NoAngle("", Open(tag1));
    assert body == "" + Open(tag1) + value1 + Close(tag1) + (Field(tag2, value2) + STATUS_OK);
  }

  lemma FirstBodyAnswers(s: Server)
    ensures Answers(Some(FirstBody(s)), "paired", "1") && Answers(Some(FirstBody(s)), "plaincert", ToHex(s.pem))
  {
    HexHasNoAngle(s.pem);
    PairedHoldsNoCert();
    TwoFieldsAnswer("paired", "1", "plaincert", ToHex(s.pem));
  }

  ghost function HonestBody(c: Crypto, s: Server, sent: seq<Request>): string
    requires Laws(c)
  {
    if |sent| == 1 then FirstBody(s)
    else if |sent| == 2 && sent[1].ClientChallenge? then
      var key := HostKey(c, s, sent[0]);
      var ch := HostDecrypts(c, key, sent[1].data);
      if ch.None? || Encrypt(c, key, ChallengeAnswer(c, s, ch.value)).None? then ""
      else "" + Field("challengeresponse", ToHex(Encrypt(c, key, ChallengeAnswer(c, s, ch.value)).value)) + STATUS_OK
    else if |sent| == 3 then "" + Field("pairingsecret", ToHex(s.secret + c.sign(s.key, s.secret))) + STATUS_OK
    else if |sent| == 4 && sent[2].ServerChallengeResp? && sent[3].ClientPairingSecret? then
      var accepts := HostAccepts(c, s, sent);
      "" + Field("paired", if accepts then "1" else "0") + STATUS_OK
    else ""
  }

  lemma HexFieldAnswers(tag: string, b: seq<byte>)
    requires '<' !in tag
    ensures Answers(Some("" + Field(tag, ToHex(b)) + STATUS_OK), tag, ToHex(b))
  {
    HexHasNoAngle(b);
    NoAngle("", Open(tag));
    FieldAnswers("", tag, ToHex(b));
  }

  lemma HonestBodyIsHonest(c: Crypto, s: Server, sent: seq<Request>)
    requires Laws(c)
    ensures HonestReply(c, s, sent, Some(HonestBody(c, s, sent)))
  {
    FirstBodyAnswers(s);
    HexFieldAnswers("pairingsecret", s.secret + c.sign(s.key, s.secret));
    NoAngle("", Open("paired"));
    FieldAnswers("", "paired", "0");
    FieldAnswers("", "paired", "1");
    if |sent| == 2 && sent[1].ClientChallenge? {
      var key := HostKey(c, s, sent[0]);
      var ch := HostDecrypts(c, key, sent[1].data);
      if ch.Some? && Encrypt(c, key, ChallengeAnswer(c, s, ch.value)).Some? {
        HexFieldAnswers("challengeresponse", Encrypt(c, key, ChallengeAnswer(c, s, ch.value)).value);
      }
    }
  }

  /** Every server has an honest host, so `HonestHostPairs` speaks of something. */
  lemma HonestHostExists(c: Crypto, s: Server) returns (host: Host)
    requires Laws(c)
    ensures HonestHost(c, s, host)
  {
    host := sent => if Laws(c) then Some(HonestBody(c, s, sent)) else None;
    forall sent
      ensures HonestReply(c, s, sent, host(sent))
    {
      HonestBodyIsHonest(c, s, sent);
    }
  }

  /** One reply to the first request is enough to make every client unwind, whatever its cryptography. */
  lemma BreakingHostExists(c: Crypto, cl: Client) returns (host: Host)
    ensures Handshake(c, cl, host).outcome.Panic?
  {
    var hex := "\U{20AC}a";
    var body := Field("paired", "1") + Field("plaincert", hex) + STATUS_OK;
    host := sent => Some(body);
    PairedHoldsNoCert();
    TwoFieldsAnswer("paired", "1", "plaincert", hex);
    var sent := [FirstRequest(cl)];
    OneIsPaired(host, sent);
    AnswersRead(host, sent, "plaincert", hex);
    EuroUnwinds();
  }

  class PairingClient {
    const c: Crypto
    const cl: Client
    const host: Host
    /** The requests sent so far. */
    var sent: seq<Request>

    constructor (c: Crypto, cl: Client, host: Host)
      ensures this.c == c && this.cl == cl && this.host == host && sent == []
    {
      this.c, this.cl, this.host := c, cl, host;
      sent := [];
    }

    method PairReq(r: Request) returns (reply: Outcome<string>)
      modifies this
      ensures sent == old(sent) + [r] && reply == Reply(host, sent)
    {
      sent := sent + [r];
      reply := Reply(host, sent);
    }

    /** `pair`, statement by statement. */
    method Pair() returns (r: Outcome<()>)
      requires sent == []
      modifies this
      ensures Result(r, sent) == Handshake(c, cl, host)
    {
      // Phase 1
      var body := PairReq(GetServerCert(ToHex(cl.salt), cl.id.certHex));
      assert sent == [FirstRequest(cl)];
      if !body.Ok? { return Err; }
      var serverCert := ReadServerCert(c, body.value);
      if !serverCert.Ok? { return if serverCert.Panic? then Panic else Err; }

      // Phase 2
      if cl.challenge.None? { return Err; }
      var encChallenge := Encrypt(c, cl.key, cl.challenge.value);
      if encChallenge.None? { return Err; }
      body := PairReq(ClientChallenge(ToHex(encChallenge.value)));
      if !body.Ok? { return Err; }
      var resp := ReadChallenge(c, cl.key, body.value);
      if !resp.Ok? { return if resp.Panic? then Panic else Err; }
      var (serverResponse, serverChallenge) := resp.value;

      // Phase 3
      if cl.id.cert.None? || cl.secret.None? { return Err; }
      var toHash := serverChallenge;
      toHash := toHash + c.certSignature(cl.id.cert.value);
      toHash := toHash + cl.secret.value;
      var enc := Encrypt(c, cl.key, c.sha256(toHash));
      if enc.None? { return Err; }
      body := PairReq(ServerChallengeResp(ToHex(enc.value)));
      if !body.Ok? { return Err; }
      var pairingSecret := ReadSecret(body.value);
      if !pairingSecret.Ok? { return if pairingSecret.Panic? then Panic else Err; }
      var (serverSecret, serverSignature) := pairingSecret.value;
      var expected := cl.challenge.value;
      expected := expected + c.certSignature(serverCert.value);
      expected := expected + serverSecret;
      if c.sha256(expected) != serverResponse { return Err; }
      if c.verify(serverCert.value, serverSecret, serverSignature) != Some(true) { return Err; }

      // Phase 4
      if cl.id.key.None? { return Err; }
      var clientSig := c.sign(cl.id.key.value, cl.secret.value);
      body := PairReq(ClientPairingSecret(ToHex(cl.secret.value + clientSig)));
      if !body.Ok? { return Err; }
      if !SaysPaired(body.value) { return Err; }
      return Ok(());
    }
  }
}
