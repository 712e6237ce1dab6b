/** A client that pairs with the server, and what it computes from the server's answers. */
module PairingClient {
  import opened Options
  import opened Pairing

  /** Decryption undoes encryption under the same key, hexadecimal digits are read back, hashes have 32 bytes. */
  ghost predicate Lawful(x: Crypto)
  {
    && (forall s, key :: x.decrypt(x.encrypt(s, key), key) == s)
    && (forall s :: x.hexToStr(x.strToHex(s)) == s)
    && (forall s :: |x.hexToStr(x.sha256(s))| == 32)
  }

  datatype Client = Client(
    request: Request,  // without any of the values of the four phases
    cert: string,
    privateKey: string,
    salt: string,
    pin: string,
    challenge: string,
    secret: string)
  {
    ghost predicate Ok(x: Crypto)
    {
      && request.uniqueId.Some? && request == Bare(request.uniqueId.value, request.clientIp)
      && x.isCert(cert) && |secret| == 16
      && |x.sign(secret, privateKey)| == 256 && x.verify(secret, x.sign(secret, privateKey), x.certKey(cert))
    }

    /** The client makes the key of the salt that it sent and the PIN that it shows. */
    ghost function Key(x: Crypto): string
      requires Lawful(x)
    {
      x.hexToStr(x.sha256(x.hexToStr(salt) + pin))[..16]
    }

    ghost function SecondRequest(x: Crypto): Request
      requires Lawful(x)
    {
      request.(clientChallenge := Some(x.strToHex(x.encrypt(challenge, Key(x)))))
    }

    /** The server's hash and its challenge. */
    ghost function Opened(x: Crypto, body: string): string
      requires Lawful(x)
    {
      x.decrypt(x.hexToStr(body), Key(x))
    }

    ghost function ThirdRequest(x: Crypto, body: string): Request
      requires Lawful(x) && |Opened(x, body)| >= 32
    {
      var hash := x.hexToStr(x.sha256(Opened(x, body)[32..] + x.certSignature(cert) + secret));
      request.(serverChallengeResp := Some(x.strToHex(x.encrypt(hash, Key(x)))))
    }

    /** The server showed that it knew the PIN: its hash is that of the client's own challenge. */
    ghost predicate Trusts(x: Crypto, body: string, secretBody: string)
      requires Lawful(x)
    {
      var s := x.hexToStr(secretBody);
      && |Opened(x, body)| >= 32 && |s| >= 16
      && Opened(x, body)[..32] == x.hexToStr(x.sha256(challenge + x.serverSignature + s[..16]))
      && s[16..] == x.sign(s[..16], x.serverKey)
    }

    ghost function FourthRequest(x: Crypto): Request
      requires Lawful(x)
    {
      request.(clientPairingSecret := Some(x.strToHex(secret + x.sign(secret, privateKey))))
    }
  }

  /** After the first request and the PIN, the key of the entry is the client's own. */
  ghost function Started(x: Crypto, known: seq<string>, w: World, c: Client, pinSecret: string): (v: World)
    requires Good(x, known, w)
    ensures Good(x, known, v)
  {
    ApplyAll(x, known, w, StartSteps(c.request, c.salt, x.strToHex(c.cert), pinSecret, c.pin, |w.histories|))
  }

  lemma SameKey(x: Crypto, known: seq<string>, w: World, c: Client, pinSecret: string)
    requires Lawful(x) && Good(x, known, w) && c.Ok(x) && c.request.Key() !in w.cache
    ensures var v, key := Started(x, known, w, c, pinSecret), c.request.Key();
            && v.paired == w.paired && key in v.cache
            && v.cache[key] == PairCache(c.cert, c.Key(x), GetServerCert, None, None, None)
  {
    HonestStart(x, known, w, c.request, c.salt, x.strToHex(c.cert), pinSecret, c.pin);
  }

  /** The second request is answered with what opens to the server's hash and challenge. */
  lemma SecondAnswer(x: Crypto, known: seq<string>, w: World, c: Client, serverSecret: string, challenge: string)
    requires Lawful(x) && Good(x, known, w) && c.Ok(x) && c.request.Key() in w.cache
    requires w.cache[c.request.Key()] == PairCache(c.cert, c.Key(x), GetServerCert, None, None, None)
    ensures var answer := Answer(x, w, c.SecondRequest(x), serverSecret, challenge);
            && answer.Accepted?
            && c.Opened(x, answer.body)
               == x.hexToStr(x.sha256(c.challenge + x.serverSignature + serverSecret)) + challenge
    ensures var v := Apply(x, known, w, Pair(c.SecondRequest(x), "", serverSecret, challenge));
            && Good(x, known, v) && v.paired == w.paired && c.request.Key() in v.cache
            && v.cache[c.request.Key()]
               == PairCache(c.cert, c.Key(x), ClientChallenge, Some(serverSecret), Some(challenge), None)
  {
    ApplyKeeps(x, known, w, Pair(c.SecondRequest(x), "", serverSecret, challenge));
    SecondOpens(x, c, serverSecret, challenge);
  }

  lemma SecondOpens(x: Crypto, c: Client, serverSecret: string, challenge: string)
    requires Lawful(x) && c.Ok(x)
    ensures var body := ChallengeBody(x, c.Key(x), c.SecondRequest(x).clientChallenge.value, serverSecret, challenge);
            c.Opened(x, body) == x.hexToStr(x.sha256(c.challenge + x.serverSignature + serverSecret)) + challenge
  {
  }

  lemma ThirdAnswer(x: Crypto, known: seq<string>, w: World, c: Client, r: Request, hash: string,
                    serverSecret: string, challenge: string)
    requires Lawful(x) && Good(x, known, w) && c.Ok(x) && c.request.Key() in w.cache
    requires w.cache[c.request.Key()]
          == PairCache(c.cert, c.Key(x), ClientChallenge, Some(serverSecret), Some(challenge), None)
    requires r == c.request.(serverChallengeResp := Some(x.strToHex(x.encrypt(hash, c.Key(x)))))
    ensures Answer(x, w, r, "", "") == Accepted(x.strToHex(serverSecret + x.sign(serverSecret, x.serverKey)))
    ensures var v := Apply(x, known, w, Pair(r, "", "", ""));
            && Good(x, known, v) && v.paired == w.paired && c.request.Key() in v.cache
            && v.cache[c.request.Key()]
               == PairCache(c.cert, c.Key(x), ServerChallengeResp, Some(serverSecret), Some(challenge), Some(hash))
  {
    ApplyKeeps(x, known, w, Pair(r, "", "", ""));
  }

  lemma FourthAnswer(x: Crypto, known: seq<string>, w: World, c: Client, hash: string,
                     serverSecret: string, challenge: string)
    requires Lawful(x) && Good(x, known, w) && c.Ok(x) && c.request.Key() in w.cache
    requires w.cache[c.request.Key()]
          == PairCache(c.cert, c.Key(x), ServerChallengeResp, Some(serverSecret), Some(challenge), Some(hash))
    requires hash == x.hexToStr(x.sha256(challenge + x.certSignature(c.cert) + c.secret))
    ensures Answer(x, w, c.FourthRequest(x), "", "") == Accepted("")
    ensures Apply(x, known, w, Pair(c.FourthRequest(x), "", "", "")).paired == w.paired + [c.cert]
  {
    SecretIsTaken(x, c, challenge, hash);
  }

  lemma SecretIsTaken(x: Crypto, c: Client, challenge: string, hash: string)
    requires Lawful(x) && c.Ok(x) && hash == x.hexToStr(x.sha256(challenge + x.certSignature(c.cert) + c.secret))
    ensures ClientPairs(x, challenge, hash, c.FourthRequest(x).clientPairingSecret.value, c.cert)
  {
    var signature := x.sign(c.secret, c.privateKey);
    var s := c.secret + signature;
    assert s[..16] == c.secret && s[16..272] == signature;
  }

  /** From the answer with this body on, the client trusts the server and is paired. */
  ghost predicate Finishes(x: Crypto, known: seq<string>, w: World, c: Client, body: string)
    requires Lawful(x) && Good(x, known, w) && c.Ok(x)
  {
    && |c.Opened(x, body)| >= 32
    && var r := c.ThirdRequest(x, body);
    var answer := Answer(x, w, r, "", "");
    && answer.Accepted? && c.Trusts(x, body, answer.body)
    && var v := Apply(x, known, w, Pair(r, "", "", ""));
    && Good(x, known, v) && Answer(x, v, c.FourthRequest(x), "", "") == Accepted("")
    && Apply(x, known, v, Pair(c.FourthRequest(x), "", "", "")).paired == w.paired + [c.cert]
  }

  lemma AfterChallenge(x: Crypto, known: seq<string>, w: World, c: Client, body: string,
                       serverSecret: string, challenge: string)
    requires Lawful(x) && Good(x, known, w) && c.Ok(x) && c.request.Key() in w.cache && |serverSecret| == 16
    requires w.cache[c.request.Key()]
          == PairCache(c.cert, c.Key(x), ClientChallenge, Some(serverSecret), Some(challenge), None)
    requires c.Opened(x, body) == x.hexToStr(x.sha256(c.challenge + x.serverSignature + serverSecret)) + challenge
    ensures Finishes(x, known, w, c, body)
  {
    var hash := x.hexToStr(x.sha256(challenge + x.certSignature(c.cert) + c.secret));
    var r := c.ThirdRequest(x, body);
    ThirdRequestIs(x, c, body, serverSecret, challenge, hash);
    ThirdAnswer(x, known, w, c, r, hash, serverSecret, challenge);
    TrustsServer(x, c, body, serverSecret, challenge);
    FourthAnswer(x, known, Apply(x, known, w, Pair(r, "", "", "")), c, hash, serverSecret, challenge);
  }

  lemma ThirdRequestIs(x: Crypto, c: Client, body: string, serverSecret: string, challenge: string, hash: string)
    requires Lawful(x) && hash == x.hexToStr(x.sha256(challenge + x.certSignature(c.cert) + c.secret))
    requires c.Opened(x, body) == x.hexToStr(x.sha256(c.challenge + x.serverSignature + serverSecret)) + challenge
    ensures |c.Opened(x, body)| >= 32
    ensures c.ThirdRequest(x, body)
         == c.request.(serverChallengeResp := Some(x.strToHex(x.encrypt(hash, c.Key(x)))))
  {
    assert c.Opened(x, body)[32..] == challenge;
  }

  lemma TrustsServer(x: Crypto, c: Client, body: string, serverSecret: string, challenge: string)
    requires Lawful(x) && |serverSecret| == 16
    requires c.Opened(x, body) == x.hexToStr(x.sha256(c.challenge + x.serverSignature + serverSecret)) + challenge
    ensures c.Trusts(x, body, x.strToHex(serverSecret + x.sign(serverSecret, x.serverKey)))
  {
    var signature := x.sign(serverSecret, x.serverKey);
    assert (serverSecret + signature)[..16] == serverSecret && (serverSecret + signature)[16..] == signature;
  }

  /**
   A client that follows the protocol with the PIN that the user entered is paired, and can trust
   the server: it gets the hash of its own challenge under the key that only salt and PIN give.
   */
  lemma HonestClientPairs(x: Crypto, known: seq<string>, w: World, c: Client, pinSecret: string,
                          serverSecret: string, challenge: string)
    requires Lawful(x) && Good(x, known, w) && c.Ok(x) && c.request.Key() !in w.cache && |serverSecret| == 16
    ensures var w1 := Started(x, known, w, c, pinSecret);
            var answer := Answer(x, w1, c.SecondRequest(x), serverSecret, challenge);
            && answer.Accepted?
            && var w2 := Apply(x, known, w1, Pair(c.SecondRequest(x), "", serverSecret, challenge));
            && w2.paired == w.paired && Good(x, known, w2) && Finishes(x, known, w2, c, answer.body)
  {
    SameKey(x, known, w, c, pinSecret);
    var w1 := Started(x, known, w, c, pinSecret);
    SecondAnswer(x, known, w1, c, serverSecret, challenge);
    var body := Answer(x, w1, c.SecondRequest(x), serverSecret, challenge).body;
    var w2 := Apply(x, known, w1, Pair(c.SecondRequest(x), "", serverSecret, challenge));
    AfterChallenge(x, known, w2, c, body, serverSecret, challenge);
  }
}
