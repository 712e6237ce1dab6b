/** Pairing a client by PIN: four requests, a PIN that the user enters, and the state between them. */
module Pairing {
  import opened Options

  /** The primitives of the cryptographic library, and what the server has of its own. */
  datatype Crypto = Crypto(
    hexToStr: string -> string,
    strToHex: string -> string,
    sha256: string -> string,
    encrypt: (string, string) -> string,
    decrypt: (string, string) -> string,
    isCert: string -> bool,
    certSignature: string -> string,
    certKey: string -> string,
    sign: (string, string) -> string,
    verify: (string, string, string) -> bool,
    serverCert: string,
    serverSignature: string,
    serverKey: string)

  const AES_KEY_SIZE := 16
  const SECRET_SIZE := 16
  const DIGEST_SIZE := 256

  /** s cut or filled up to n characters. */
  function Resize(s: string, n: nat): (r: string)
    ensures |r| == n && (|s| >= n ==> r == s[..n]) && (|s| < n ==> s <= r)
  {
    if |s| >= n then s[..n] else s + seq(n - |s|, _ => '\0')
  }

  function AesKey(x: Crypto, salt: string, pin: string): string
  {
    Resize(x.hexToStr(x.sha256(x.hexToStr(salt) + pin)), AES_KEY_SIZE)
  }

  function ClientHash(x: Crypto, aesKey: string, response: string): string
  {
    x.decrypt(x.hexToStr(response), aesKey)
  }

  /** The final check of a client's secret against the challenge, its hash and its certificate. */
  predicate ClientPairs(x: Crypto, challenge: string, hash: string, clientSecret: string, cert: string)
  {
    var s := x.hexToStr(clientSecret);
    if |s| < DIGEST_SIZE then false
    else
      var secret := s[..SECRET_SIZE];
      var signature := s[SECRET_SIZE..if |s| < SECRET_SIZE + DIGEST_SIZE then |s| else SECRET_SIZE + DIGEST_SIZE];
      && x.hexToStr(x.sha256(challenge + x.certSignature(cert) + secret)) == hash
      && x.verify(secret, signature, x.certKey(cert))
  }

  datatype Phase = NoPhase | GetServerCert | ClientChallenge | ServerChallengeResp | ClientPairingSecret

  /** What is kept of a client between its requests. */
  datatype PairCache = PairCache(
    clientCert: string,
    aesKey: string,
    lastPhase: Phase,
    serverSecret: Option<string>,
    serverChallenge: Option<string>,
    clientHash: Option<string>)

  /** A secret that a PIN can be entered for, and the attempt that waits for it. */
  datatype PendingPin = PendingPin(id: nat, clientIp: string)

  /** The thread of an attempt that waits for its PIN, or has just got it. */
  datatype PinThread = PinThread(secret: string, salt: string, cert: string, key: string, pin: Option<string>)

  datatype Request = Request(
    uniqueId: Option<string>,
    clientIp: string,
    salt: Option<string>,
    clientCert: Option<string>,
    clientChallenge: Option<string>,
    serverChallengeResp: Option<string>,
    clientPairingSecret: Option<string>)
  {
    function Key(): string
      requires uniqueId.Some?
    {
      uniqueId.value + "@" + clientIp
    }
  }

  datatype Reply = Accepted(body: string) | Rejected(reason: string) | Later | Silence

  // The history of an attempt

  datatype Event =
    | Requested(key: string, clientIp: string, salt: string, cert: string, secret: string)
    | PinEntered(pin: string)
    | CertSent
    | Challenged(serverSecret: string, challenge: string)
    | Hashed(hash: string)
    | Finished(clientSecret: string, joined: bool)

  type History = seq<Event>

  /** The final check uses the challenge and the hash of the attempt itself. */
  predicate Passes(x: Crypto, h: History, clientSecret: string)
    requires |h| > 4 && h[0].Requested? && h[3].Challenged? && h[4].Hashed?
  {
    x.isCert(h[0].cert) && ClientPairs(x, h[3].challenge, h[4].hash, clientSecret, h[0].cert)
  }

  /** An attempt goes through these steps in this order, each at most once, and may stop anywhere. */
  ghost predicate Legal(x: Crypto, h: History)
  {
    && 0 < |h| <= 6 && h[0].Requested?
    && (|h| > 1 ==> h[1].PinEntered?)
    && (|h| > 2 ==> h[2].CertSent?)
    && (|h| > 3 ==> h[3].Challenged?)
    && (|h| > 4 ==> h[4].Hashed?)
    && (|h| > 5 ==> h[5].Finished? && h[5].joined == Passes(x, h, h[5].clientSecret))
  }

  /** The cache entry that an attempt has after its history so far. */
  ghost function EntryOf(x: Crypto, h: History): PairCache
    requires Legal(x, h) && 3 <= |h| <= 5
  {
    PairCache(
      h[0].cert,
      AesKey(x, h[0].salt, h[1].pin),
      if |h| == 3 then GetServerCert else if |h| == 4 then ClientChallenge else ServerChallengeResp,
      if |h| > 3 then Some(h[3].serverSecret) else None,
      if |h| > 3 then Some(h[3].challenge) else None,
      if |h| > 4 then Some(h[4].hash) else None)
  }

  ghost function ThreadOf(x: Crypto, h: History): PinThread
    requires Legal(x, h) && |h| <= 2
  {
    PinThread(h[0].secret, h[0].salt, h[0].cert, h[0].key, if |h| > 1 then Some(h[1].pin) else None)
  }

  /** The attempt ended with the certificate joining the paired ones. */
  ghost predicate Joined(x: Crypto, h: History, cert: string)
  {
    Legal(x, h) && |h| == 6 && h[5].joined && h[0].cert == cert
  }

  // The state of the server, with the history of every attempt and the attempt that each entry belongs to

  datatype World = World(
    cache: map<string, PairCache>,
    paired: seq<string>,
    pending: map<string, PendingPin>,
    threads: map<nat, PinThread>,
    histories: seq<History>,
    owner: map<string, nat>)

  ghost predicate LegalAt(x: Crypto, hs: seq<History>, id: nat)
  {
    id < |hs| && Legal(x, hs[id])
  }

  /** Thread id waits for its PIN, or has got it. */
  ghost predicate ThreadIs(x: Crypto, hs: seq<History>, threads: map<nat, PinThread>, id: nat)
  {
    id in threads && LegalAt(x, hs, id) && |hs[id]| <= 2 && threads[id] == ThreadOf(x, hs[id])
  }

  ghost predicate PendingIs(x: Crypto, hs: seq<History>, threads: map<nat, PinThread>, pending: map<string, PendingPin>,
                            secret: string)
  {
    secret in pending &&
    var p := pending[secret];
    && ThreadIs(x, hs, threads, p.id) && |hs[p.id]| == 1
    && hs[p.id][0].secret == secret && hs[p.id][0].clientIp == p.clientIp
  }

  ghost predicate EntryIs(x: Crypto, hs: seq<History>, cache: map<string, PairCache>, owner: map<string, nat>,
                          key: string)
  {
    key in cache && key in owner &&
    var id := owner[key];
    LegalAt(x, hs, id) && 3 <= |hs[id]| <= 5 && hs[id][0].key == key && cache[key] == EntryOf(x, hs[id])
  }

  ghost predicate JoinedIn(x: Crypto, hs: seq<History>, cert: string)
  {
    exists id: nat :: id < |hs| && Joined(x, hs[id], cert)
  }

  /** What holds at all times. */
  ghost predicate Good(x: Crypto, known: seq<string>, w: World)
  {
    && (forall id: nat :: id < |w.histories| ==> LegalAt(x, w.histories, id))
    && (forall id :: id in w.threads ==> ThreadIs(x, w.histories, w.threads, id))
    && (forall secret :: secret in w.pending ==> PendingIs(x, w.histories, w.threads, w.pending, secret))
    && (forall s, t :: s in w.pending && t in w.pending && w.pending[s].clientIp == w.pending[t].clientIp ==> s == t)
    && (forall key :: key in w.cache ==> EntryIs(x, w.histories, w.cache, w.owner, key))
    && (forall cert :: cert in w.paired ==> cert in known || JoinedIn(x, w.histories, cert))
  }

  // Steps

  /** The pending PINs of other addresses. */
  function Others(pending: map<string, PendingPin>, clientIp: string): map<string, PendingPin>
  {
    map s | s in pending && pending[s].clientIp != clientIp :: pending[s]
  }

  ghost function Begin(w: World, key: string, clientIp: string, salt: string, cert: string, secret: string): World
  {
    var id := |w.histories|;
    w.(pending := Others(w.pending, clientIp)[secret := PendingPin(id, clientIp)],
       threads := w.threads[id := PinThread(secret, salt, cert, key, None)],
       histories := w.histories + [[Requested(key, clientIp, salt, cert, secret)]])
  }

  ghost function Drop(w: World, key: string): World
  {
    w.(cache := w.cache - {key})
  }

  ghost function Extend(hs: seq<History>, id: nat, e: Event): (r: seq<History>)
    requires id < |hs|
    ensures |r| == |hs| && r[id] == hs[id] + [e] && forall j :: 0 <= j < |hs| && j != id ==> r[j] == hs[j]
  {
    hs[id := hs[id] + [e]]
  }

  ghost function EnterPin(w: World, secret: string, pin: string): World
    requires secret in w.pending && w.pending[secret].id in w.threads && w.pending[secret].id < |w.histories|
  {
    var id := w.pending[secret].id;
    w.(pending := w.pending - {secret},
       threads := w.threads[id := w.threads[id].(pin := Some(pin))],
       histories := Extend(w.histories, id, PinEntered(pin)))
  }

  ghost function SendCert(x: Crypto, w: World, id: nat): World
    requires id in w.threads && w.threads[id].pin.Some? && id < |w.histories|
  {
    var t := w.threads[id];
    w.(threads := w.threads - {id},
       cache := w.cache[t.key := PairCache(t.cert, AesKey(x, t.salt, t.pin.value), GetServerCert, None, None, None)],
       owner := w.owner[t.key := id],
       histories := Extend(w.histories, id, CertSent))
  }

  ghost function GiveUp(w: World, id: nat): World
    requires id in w.threads
  {
    w.(threads := w.threads - {id}, pending := w.pending - {w.threads[id].secret})
  }

  ghost function Challenge(w: World, key: string, serverSecret: string, challenge: string): World
    requires key in w.cache && key in w.owner && w.owner[key] < |w.histories|
  {
    w.(cache := w.cache[key := w.cache[key].(lastPhase := ClientChallenge, serverSecret := Some(serverSecret),
                                             serverChallenge := Some(challenge))],
       histories := Extend(w.histories, w.owner[key], Challenged(serverSecret, challenge)))
  }

  ghost function TakeHash(w: World, key: string, hash: string): World
    requires key in w.cache && key in w.owner && w.owner[key] < |w.histories|
  {
    w.(cache := w.cache[key := w.cache[key].(lastPhase := ServerChallengeResp, clientHash := Some(hash))],
       histories := Extend(w.histories, w.owner[key], Hashed(hash)))
  }

  ghost function Finish(w: World, key: string, clientSecret: string, joined: bool): World
    requires key in w.cache && key in w.owner && w.owner[key] < |w.histories|
  {
    w.(cache := w.cache - {key},
       paired := if joined then w.paired + [w.cache[key].clientCert] else w.paired,
       histories := Extend(w.histories, w.owner[key], Finished(clientSecret, joined)))
  }

  // What the steps keep

  /** Histories of which at most number id was extended; id is |hs| when one was added. */
  ghost predicate OnlyAt(hs: seq<History>, hs': seq<History>, id: nat)
  {
    |hs| <= |hs'| && forall j :: 0 <= j < |hs| && j != id ==> hs'[j] == hs[j]
  }

  /** The parts of the state that do not belong to attempt id stay good. */
  lemma OthersStay(x: Crypto, known: seq<string>, w: World, hs: seq<History>, id: nat)
    requires Good(x, known, w) && OnlyAt(w.histories, hs, id)
    requires id < |w.histories| ==> |w.histories[id]| < 6
    ensures forall j :: j in w.threads && j != id ==> ThreadIs(x, hs, w.threads, j)
    ensures forall s :: s in w.pending && w.pending[s].id != id ==> PendingIs(x, hs, w.threads, w.pending, s)
    ensures forall k :: k in w.cache && k in w.owner && w.owner[k] != id ==> EntryIs(x, hs, w.cache, w.owner, k)
    ensures forall cert :: cert in w.paired && cert !in known ==> JoinedIn(x, hs, cert)
    ensures forall j: nat :: j < |w.histories| && j != id ==> LegalAt(x, hs, j)
  {
    forall j | j in w.threads && j != id
      ensures ThreadIs(x, hs, w.threads, j)
    {
      assert ThreadIs(x, w.histories, w.threads, j);
    }
    forall s | s in w.pending && w.pending[s].id != id
      ensures PendingIs(x, hs, w.threads, w.pending, s)
    {
      assert PendingIs(x, w.histories, w.threads, w.pending, s);
    }
    forall k | k in w.cache && k in w.owner && w.owner[k] != id
      ensures EntryIs(x, hs, w.cache, w.owner, k)
    {
      assert EntryIs(x, w.histories, w.cache, w.owner, k);
    }
    forall cert | cert in w.paired && cert !in known
      ensures JoinedIn(x, hs, cert)
    {
      JoinedStays(x, w.histories, hs, id, cert);
    }
    forall j: nat | j < |w.histories| && j != id
      ensures LegalAt(x, hs, j)
    {
      assert LegalAt(x, w.histories, j);
    }
  }

  lemma JoinedStays(x: Crypto, hs: seq<History>, hs': seq<History>, id: nat, cert: string)
    requires JoinedIn(x, hs, cert) && OnlyAt(hs, hs', id) && (id < |hs| ==> |hs[id]| < 6)
    ensures JoinedIn(x, hs', cert)
  {
    var j: nat :| j < |hs| && Joined(x, hs[j], cert);
    assert Joined(x, hs'[j], cert);
  }

  lemma BeginKeeps(x: Crypto, known: seq<string>, w: World, key: string, clientIp: string, salt: string, cert: string,
                   secret: string)
    requires Good(x, known, w)
    ensures Good(x, known, Begin(w, key, clientIp, salt, cert, secret))
  {
    var v, id := Begin(w, key, clientIp, salt, cert, secret), |w.histories|;
    var hs := v.histories;
    OthersStay(x, known, w, hs, id);
    assert LegalAt(x, hs, id);
    forall j | j in v.threads
      ensures ThreadIs(x, hs, v.threads, j)
    {
      if j != id {
        assert ThreadIs(x, hs, w.threads, j);
      }
    }
    BeginPending(x, known, w, key, clientIp, salt, cert, secret);
    forall k | k in v.cache
      ensures EntryIs(x, hs, v.cache, v.owner, k)
    {
      assert EntryIs(x, w.histories, w.cache, w.owner, k);
      assert EntryIs(x, hs, w.cache, w.owner, k);
    }
  }

  lemma BeginPending(x: Crypto, known: seq<string>, w: World, key: string, clientIp: string, salt: string,
                     cert: string, secret: string)
    requires Good(x, known, w)
    ensures var v := Begin(w, key, clientIp, salt, cert, secret);
            forall s :: s in v.pending ==> PendingIs(x, v.histories, v.threads, v.pending, s)
  {
    var v := Begin(w, key, clientIp, salt, cert, secret);
    forall s | s in v.pending
      ensures PendingIs(x, v.histories, v.threads, v.pending, s)
    {
      if s != secret {
        assert PendingIs(x, w.histories, w.threads, w.pending, s);
        assert ThreadIs(x, w.histories, w.threads, w.pending[s].id);
      } else {
        assert LegalAt(x, v.histories, |w.histories|);
      }
    }
  }

  lemma DropKeeps(x: Crypto, known: seq<string>, w: World, key: string)
    requires Good(x, known, w)
    ensures Good(x, known, Drop(w, key))
  {
    var v := Drop(w, key);
    forall k | k in v.cache
      ensures EntryIs(x, v.histories, v.cache, v.owner, k)
    {
      assert EntryIs(x, w.histories, w.cache, w.owner, k);
    }
  }

  lemma EnterPinKeeps(x: Crypto, known: seq<string>, w: World, secret: string, pin: string)
    requires Good(x, known, w) && secret in w.pending
    ensures PendingIs(x, w.histories, w.threads, w.pending, secret)
    ensures Good(x, known, EnterPin(w, secret, pin))
  {
    assert PendingIs(x, w.histories, w.threads, w.pending, secret);
    var v, id := EnterPin(w, secret, pin), w.pending[secret].id;
    var hs := v.histories;
    OthersStay(x, known, w, hs, id);
    assert ThreadIs(x, hs, v.threads, id);
    forall j | j in v.threads
      ensures ThreadIs(x, hs, v.threads, j)
    {
      if j != id {
        assert ThreadIs(x, hs, w.threads, j);
      }
    }
    forall s | s in v.pending
      ensures PendingIs(x, hs, v.threads, v.pending, s)
    {
      assert PendingIs(x, w.histories, w.threads, w.pending, s);
      assert w.pending[s].id != id;
      assert PendingIs(x, hs, w.threads, w.pending, s);
    }
    EntriesElsewhere(x, known, w, hs, id);
  }

  /** No entry of the cache belongs to an attempt that still has its thread. */
  lemma EntriesElsewhere(x: Crypto, known: seq<string>, w: World, hs: seq<History>, id: nat)
    requires Good(x, known, w) && OnlyAt(w.histories, hs, id) && id < |w.histories| && |w.histories[id]| <= 2
    ensures forall k :: k in w.cache ==> EntryIs(x, hs, w.cache, w.owner, k)
  {
    OthersStay(x, known, w, hs, id);
    forall k | k in w.cache
      ensures EntryIs(x, hs, w.cache, w.owner, k)
    {
      assert EntryIs(x, w.histories, w.cache, w.owner, k);
    }
  }

  lemma SendCertKeeps(x: Crypto, known: seq<string>, w: World, id: nat)
    requires Good(x, known, w) && id in w.threads && w.threads[id].pin.Some?
    ensures ThreadIs(x, w.histories, w.threads, id)
    ensures Good(x, known, SendCert(x, w, id))
  {
    assert ThreadIs(x, w.histories, w.threads, id);
    var v := SendCert(x, w, id);
    var hs := v.histories;
    OthersStay(x, known, w, hs, id);
    EntriesElsewhere(x, known, w, hs, id);
    assert LegalAt(x, hs, id);
    forall j | j in v.threads
      ensures ThreadIs(x, hs, v.threads, j)
    {
      assert ThreadIs(x, hs, w.threads, j);
    }
    forall s | s in v.pending
      ensures PendingIs(x, hs, v.threads, v.pending, s)
    {
      assert PendingIs(x, w.histories, w.threads, w.pending, s);
      assert PendingIs(x, hs, w.threads, w.pending, s);
    }
    forall k | k in v.cache
      ensures EntryIs(x, hs, v.cache, v.owner, k)
    {
      if k != w.threads[id].key {
        assert EntryIs(x, hs, w.cache, w.owner, k);
      }
    }
  }

  lemma GiveUpKeeps(x: Crypto, known: seq<string>, w: World, id: nat)
    requires Good(x, known, w) && id in w.threads && w.threads[id].pin.None?
    ensures Good(x, known, GiveUp(w, id))
  {
    var v := GiveUp(w, id);
    assert ThreadIs(x, w.histories, w.threads, id);
    forall j | j in v.threads
      ensures ThreadIs(x, v.histories, v.threads, j)
    {
      assert ThreadIs(x, w.histories, w.threads, j);
    }
    forall s | s in v.pending
      ensures PendingIs(x, v.histories, v.threads, v.pending, s)
    {
      assert PendingIs(x, w.histories, w.threads, w.pending, s);
    }
  }

  /** The threads and the pending PINs do not belong to an attempt that has an entry. */
  lemma ThreadsElsewhere(x: Crypto, known: seq<string>, w: World, hs: seq<History>, id: nat)
    requires Good(x, known, w) && OnlyAt(w.histories, hs, id) && id < |w.histories| && 3 <= |w.histories[id]| < 6
    ensures forall j :: j in w.threads ==> ThreadIs(x, hs, w.threads, j)
    ensures forall s :: s in w.pending ==> PendingIs(x, hs, w.threads, w.pending, s)
  {
    OthersStay(x, known, w, hs, id);
    forall j | j in w.threads
      ensures ThreadIs(x, hs, w.threads, j)
    {
      assert ThreadIs(x, w.histories, w.threads, j);
    }
    forall s | s in w.pending
      ensures PendingIs(x, hs, w.threads, w.pending, s)
    {
      assert PendingIs(x, w.histories, w.threads, w.pending, s);
    }
  }

  /** Entries of other keys belong to other attempts. */
  lemma EntriesOfOthers(x: Crypto, known: seq<string>, w: World, hs: seq<History>, key: string)
    requires Good(x, known, w) && key in w.cache && EntryIs(x, w.histories, w.cache, w.owner, key)
    requires OnlyAt(w.histories, hs, w.owner[key])
    ensures forall k :: k in w.cache && k != key ==> EntryIs(x, hs, w.cache, w.owner, k)
  {
    OthersStay(x, known, w, hs, w.owner[key]);
    forall k | k in w.cache && k != key
      ensures EntryIs(x, hs, w.cache, w.owner, k)
    {
      assert EntryIs(x, w.histories, w.cache, w.owner, k);
    }
  }

  /** An entry that moves on with its attempt. */
  lemma EntryMoves(x: Crypto, known: seq<string>, w: World, v: World, key: string, e: Event)
    requires Good(x, known, w) && key in w.cache && EntryIs(x, w.histories, w.cache, w.owner, key)
    requires v.histories == Extend(w.histories, w.owner[key], e) && LegalAt(x, v.histories, w.owner[key])
    requires |v.histories[w.owner[key]]| <= 5
    requires v == w.(cache := w.cache[key := EntryOf(x, v.histories[w.owner[key]])], histories := v.histories)
    ensures Good(x, known, v)
  {
    var hs, id := v.histories, w.owner[key];
    OthersStay(x, known, w, hs, id);
    ThreadsElsewhere(x, known, w, hs, id);
    EntriesOfOthers(x, known, w, hs, key);
    forall k | k in v.cache
      ensures EntryIs(x, hs, v.cache, v.owner, k)
    {
      if k != key {
        assert EntryIs(x, hs, w.cache, w.owner, k);
      }
    }
  }

  lemma ChallengeKeeps(x: Crypto, known: seq<string>, w: World, key: string, serverSecret: string, challenge: string)
    requires Good(x, known, w) && key in w.cache && w.cache[key].lastPhase == GetServerCert
    ensures EntryIs(x, w.histories, w.cache, w.owner, key)
    ensures Good(x, known, Challenge(w, key, serverSecret, challenge))
  {
    assert EntryIs(x, w.histories, w.cache, w.owner, key);
    EntryMoves(x, known, w, Challenge(w, key, serverSecret, challenge), key, Challenged(serverSecret, challenge));
  }

  lemma TakeHashKeeps(x: Crypto, known: seq<string>, w: World, key: string, hash: string)
    requires Good(x, known, w) && key in w.cache && w.cache[key].lastPhase == ClientChallenge
    ensures EntryIs(x, w.histories, w.cache, w.owner, key)
    ensures Good(x, known, TakeHash(w, key, hash))
  {
    assert EntryIs(x, w.histories, w.cache, w.owner, key);
    EntryMoves(x, known, w, TakeHash(w, key, hash), key, Hashed(hash));
  }

  lemma FinishKeeps(x: Crypto, known: seq<string>, w: World, key: string, clientSecret: string, joined: bool)
    requires Good(x, known, w) && key in w.cache && w.cache[key].lastPhase == ServerChallengeResp
    requires joined == EntryPasses(x, w.cache[key], clientSecret)
    ensures EntryIs(x, w.histories, w.cache, w.owner, key)
    ensures Good(x, known, Finish(w, key, clientSecret, joined))
  {
    assert EntryIs(x, w.histories, w.cache, w.owner, key);
    var v, id := Finish(w, key, clientSecret, joined), w.owner[key];
    var hs := v.histories;
    assert LegalAt(x, hs, id);
    OthersStay(x, known, w, hs, id);
    ThreadsElsewhere(x, known, w, hs, id);
    EntriesOfOthers(x, known, w, hs, key);
    forall k | k in v.cache
      ensures EntryIs(x, hs, v.cache, v.owner, k)
    {
      assert EntryIs(x, hs, w.cache, w.owner, k);
    }
    if joined {
      assert Joined(x, hs[id], w.cache[key].clientCert);
    }
  }

  /** The final check on an entry. */
  predicate EntryPasses(x: Crypto, c: PairCache, clientSecret: string)
  {
    && c.serverChallenge.Some? && c.clientHash.Some? && x.isCert(c.clientCert)
    && ClientPairs(x, c.serverChallenge.value, c.clientHash.value, clientSecret, c.clientCert)
  }

  // Requests and the other steps, each of them atomic

  /** What a pairing request does; secret, serverSecret and challenge are the random values it may draw. */
  ghost function Handled(x: Crypto, known: seq<string>, w: World, r: Request,
                         secret: string, serverSecret: string, challenge: string): World
    requires Good(x, known, w)
  {
    if r.uniqueId.None? then w
    else if r.salt.Some? && r.clientCert.Some? then
      if r.Key() in w.cache then Drop(w, r.Key())
      else Begin(w, r.Key(), r.clientIp, r.salt.value, x.hexToStr(r.clientCert.value), secret)
    else if r.Key() !in w.cache then w
    else
      assert EntryIs(x, w.histories, w.cache, w.owner, r.Key());
      var key, c := r.Key(), w.cache[r.Key()];
      if r.clientChallenge.Some? then
        if c.lastPhase == GetServerCert then Challenge(w, key, serverSecret, challenge) else Drop(w, key)
      else if r.serverChallengeResp.Some? && c.serverSecret.Some? then
        if c.lastPhase == ClientChallenge then TakeHash(w, key, ClientHash(x, c.aesKey, r.serverChallengeResp.value))
        else Drop(w, key)
      else if r.clientPairingSecret.Some? && c.serverChallenge.Some? && c.clientHash.Some? then
        Finish(w, key, r.clientPairingSecret.value, EntryPasses(x, c, r.clientPairingSecret.value))
      else w
  }

  /** What the server answers to a client's challenge: a hash that only it can make, and its own challenge. */
  function ChallengeBody(x: Crypto, aesKey: string, clientChallenge: string, serverSecret: string, challenge: string):
    string
  {
    var hash := x.hexToStr(x.sha256(x.decrypt(x.hexToStr(clientChallenge), aesKey) + x.serverSignature + serverSecret));
    x.strToHex(x.encrypt(hash + challenge, aesKey))
  }

  /** The secret of that hash, signed. */
  function SecretBody(x: Crypto, serverSecret: string): string
  {
    x.strToHex(serverSecret + x.sign(serverSecret, x.serverKey))
  }

  /** What a pairing request is answered. */
  ghost function Answer(x: Crypto, w: World, r: Request, serverSecret: string, challenge: string): Reply
  {
    if r.uniqueId.None? then Rejected("Received pair request without uniqueid, stopping.")
    else if r.salt.Some? && r.clientCert.Some? then
      if r.Key() in w.cache then Rejected("Out of order pair request (phase 1)") else Later
    else if r.Key() !in w.cache then Rejected("Unable to find the client in the pairing cache")
    else
      var c := w.cache[r.Key()];
      if r.clientChallenge.Some? then
        if c.lastPhase != GetServerCert then Rejected("Out of order pair request (phase 2)")
        else Accepted(ChallengeBody(x, c.aesKey, r.clientChallenge.value, serverSecret, challenge))
      else if r.serverChallengeResp.Some? && c.serverSecret.Some? then
        if c.lastPhase != ClientChallenge then Rejected("Out of order pair request (phase 3)")
        else Accepted(SecretBody(x, c.serverSecret.value))
      else if r.clientPairingSecret.Some? && c.serverChallenge.Some? && c.clientHash.Some? then
        LastAnswer(x, c, r.clientPairingSecret.value)
      else Silence
  }

  function LastAnswer(x: Crypto, c: PairCache, clientSecret: string): Reply
  {
    if !x.isCert(c.clientCert) then Rejected("Unable to parse client certificate")
    else if EntryPasses(x, c, clientSecret) then Accepted("")
    else Rejected("Failed pairing")
  }

  /** The phase of an entry determines which of its values are set. */
  lemma PhaseDetermines(x: Crypto, known: seq<string>, w: World, key: string)
    requires Good(x, known, w) && key in w.cache
    ensures var c := w.cache[key];
            && (c.lastPhase == GetServerCert || c.lastPhase == ClientChallenge || c.lastPhase == ServerChallengeResp)
            && (c.serverSecret.Some? <==> c.lastPhase != GetServerCert)
            && (c.serverChallenge.Some? <==> c.lastPhase != GetServerCert)
            && (c.clientHash.Some? <==> c.lastPhase == ServerChallengeResp)
  {
    assert EntryIs(x, w.histories, w.cache, w.owner, key);
  }

  /** A request out of order makes the server forget its client, and pairs nobody. */
  lemma OutOfOrderForgets(x: Crypto, known: seq<string>, w: World, r: Request,
                          secret: string, serverSecret: string, challenge: string)
    requires Good(x, known, w) && r.uniqueId.Some? && r.Key() in w.cache
    requires var phase := w.cache[r.Key()].lastPhase;
             || (r.salt.Some? && r.clientCert.Some?)
             || (r.clientChallenge.Some? && phase != GetServerCert)
             || (r.clientChallenge.None? && r.serverChallengeResp.Some? && phase == ServerChallengeResp)
    ensures Handled(x, known, w, r, secret, serverSecret, challenge) == w.(cache := w.cache - {r.Key()})
    ensures Answer(x, w, r, serverSecret, challenge).Rejected?
  {
    PhaseDetermines(x, known, w, r.Key());
  }

  /**
   A request is left without an answer exactly when its client has an entry, and the request
   carries nothing that the phase of the entry could take.
   */
  lemma SilentWhen(x: Crypto, known: seq<string>, w: World, r: Request, serverSecret: string, challenge: string)
    requires Good(x, known, w)
    ensures Answer(x, w, r, serverSecret, challenge) == Silence <==>
            && r.uniqueId.Some? && !(r.salt.Some? && r.clientCert.Some?) && r.Key() in w.cache
            && r.clientChallenge.None?
            && (r.serverChallengeResp.Some? ==> w.cache[r.Key()].lastPhase == GetServerCert)
            && (r.clientPairingSecret.Some? ==> w.cache[r.Key()].lastPhase != ServerChallengeResp)
  {
    if r.uniqueId.Some? && r.Key() in w.cache {
      PhaseDetermines(x, known, w, r.Key());
    }
  }

  /** Clients of different addresses or names have different entries, as no address has an at sign. */
  lemma KeyDetermines(r: Request, q: Request)
    requires r.uniqueId.Some? && q.uniqueId.Some? && '@' !in r.clientIp && '@' !in q.clientIp
    ensures r.Key() == q.Key() <==> r.uniqueId == q.uniqueId && r.clientIp == q.clientIp
  {
    if r.Key() == q.Key() {
      SplitAtSign(r.uniqueId.value, r.clientIp, q.uniqueId.value, q.clientIp);
    }
  }

  lemma SplitAtSign(a: string, s: string, b: string, t: string)
    requires a + "@" + s == b + "@" + t && '@' !in s && '@' !in t
    ensures a == b && s == t
  {
    LastSign(a, s);
    LastSign(b, t);
    var k := a + "@" + s;
    assert k[..|a|] == a && k[..|b|] == b && k[|a| + 1..] == s && k[|b| + 1..] == t;
  }

  lemma LastSign(a: string, s: string)
    requires '@' !in s
    ensures (a + "@" + s)[|a|] == '@' && forall i :: |a| < i < |a + "@" + s| ==> (a + "@" + s)[i] != '@'
  {
    forall i | |a| < i < |a + "@" + s|
      ensures (a + "@" + s)[i] != '@'
    {
      assert (a + "@" + s)[i] == s[i - |a| - 1];
    }
  }

  lemma HandledKeeps(x: Crypto, known: seq<string>, w: World, r: Request,
                     secret: string, serverSecret: string, challenge: string)
    requires Good(x, known, w)
    ensures Good(x, known, Handled(x, known, w, r, secret, serverSecret, challenge))
  {
    if r.uniqueId.None? {
    } else if r.salt.Some? && r.clientCert.Some? {
      DropKeeps(x, known, w, r.Key());
      BeginKeeps(x, known, w, r.Key(), r.clientIp, r.salt.value, x.hexToStr(r.clientCert.value), secret);
    } else if r.Key() in w.cache {
      EntryStepKeeps(x, known, w, r, serverSecret, challenge);
    }
  }

  lemma EntryStepKeeps(x: Crypto, known: seq<string>, w: World, r: Request, serverSecret: string, challenge: string)
    requires Good(x, known, w) && r.uniqueId.Some? && !(r.salt.Some? && r.clientCert.Some?) && r.Key() in w.cache
    ensures Good(x, known, Handled(x, known, w, r, "", serverSecret, challenge))
  {
    var key, c := r.Key(), w.cache[r.Key()];
    PhaseDetermines(x, known, w, key);
    DropKeeps(x, known, w, key);
    if r.clientChallenge.Some? {
      if c.lastPhase == GetServerCert {
        ChallengeKeeps(x, known, w, key, serverSecret, challenge);
      }
    } else if r.serverChallengeResp.Some? && c.serverSecret.Some? {
      if c.lastPhase == ClientChallenge {
        TakeHashKeeps(x, known, w, key, ClientHash(x, c.aesKey, r.serverChallengeResp.value));
      }
    } else if r.clientPairingSecret.Some? && c.serverChallenge.Some? && c.clientHash.Some? {
      FinishKeeps(x, known, w, key, r.clientPairingSecret.value, EntryPasses(x, c, r.clientPairingSecret.value));
    }
  }

  /** The other values of a sequence. */
  function Without(s: seq<string>, cert: string): (r: seq<string>)
    ensures forall c :: c in r <==> c in s && c != cert
  {
    if s == [] then []
    else Without(s[..|s| - 1], cert) + if s[|s| - 1] == cert then [] else [s[|s| - 1]]
  }

  /** Exactly the places of the other values are kept, in order and as often as they occur. */
  lemma {:induction false} WithoutKeepsOrder(s: seq<string>, cert: string) returns (at: seq<nat>)
    ensures |at| == |Without(s, cert)| && Ascending(at, |s|)
    ensures forall k :: 0 <= k < |at| ==> Without(s, cert)[k] == s[at[k]]
    ensures forall i :: 0 <= i < |s| ==> (s[i] != cert <==> i in at)
  {
    if s == [] {
      at := [];
    } else {
      var n := |s| - 1;
      var before := WithoutKeepsOrder(s[..n], cert);
      at := if s[n] == cert then before else before + [n];
      PlacesMore(s, n, cert, before, at);
    }
  }

  lemma PlacesMore(s: seq<string>, n: nat, cert: string, before: seq<nat>, at: seq<nat>)
    requires n == |s| - 1 && at == (if s[n] == cert then before else before + [n])
    requires Ascending(before, n) && forall i :: 0 <= i < n ==> (s[..n][i] != cert <==> i in before)
    ensures Ascending(at, |s|) && forall i :: 0 <= i < |s| ==> (s[i] != cert <==> i in at)
  {
    forall i | 0 <= i < |s|
      ensures s[i] != cert <==> i in at
    {
      if i < n {
        assert s[..n][i] == s[i];
      }
    }
  }

  /** Places in order, all before n. */
  ghost predicate Ascending(at: seq<nat>, n: nat)
  {
    && (forall i :: 0 <= i < |at| ==> at[i] < n)
    && (forall i, j :: 0 <= i < j < |at| ==> at[i] < at[j])
  }

  ghost function Unpaired(w: World, key: string): World
  {
    if key in w.cache then w.(paired := Without(w.paired, w.cache[key].clientCert)) else w
  }

  lemma UnpairedKeeps(x: Crypto, known: seq<string>, w: World, key: string)
    requires Good(x, known, w)
    ensures Good(x, known, Unpaired(w, key))
  {
  }

  /** A thread goes on when its PIN was entered, and otherwise in the end gives up. */
  ghost function Woken(x: Crypto, known: seq<string>, w: World, id: nat): World
    requires Good(x, known, w)
  {
    if id !in w.threads then w
    else
      assert ThreadIs(x, w.histories, w.threads, id);
      if w.threads[id].pin.Some? then SendCert(x, w, id) else GiveUp(w, id)
  }

  ghost function Posted(x: Crypto, known: seq<string>, w: World, pin: string, secret: string): World
    requires Good(x, known, w)
  {
    if secret !in w.pending then w
    else
      assert PendingIs(x, w.histories, w.threads, w.pending, secret);
      EnterPin(w, secret, pin)
  }

  datatype Step =
    | Pair(r: Request, secret: string, serverSecret: string, challenge: string)
    | PostPin(pin: string, secret: string)
    | Wake(id: nat)
    | Unpair(key: string)

  ghost function Apply(x: Crypto, known: seq<string>, w: World, step: Step): (v: World)
    requires Good(x, known, w)
  {
    match step
    case Pair(r, secret, serverSecret, challenge) => Handled(x, known, w, r, secret, serverSecret, challenge)
    case PostPin(pin, secret) => Posted(x, known, w, pin, secret)
    case Wake(id) => Woken(x, known, w, id)
    case Unpair(key) => Unpaired(w, key)
  }

  lemma ApplyKeeps(x: Crypto, known: seq<string>, w: World, step: Step)
    requires Good(x, known, w)
    ensures Good(x, known, Apply(x, known, w, step))
  {
    match step
    case Pair(r, secret, serverSecret, challenge) => HandledKeeps(x, known, w, r, secret, serverSecret, challenge);
    case PostPin(pin, secret) =>
      if secret in w.pending {
        EnterPinKeeps(x, known, w, secret, pin);
      }
    case Wake(id) =>
      if id in w.threads {
        if w.threads[id].pin.Some? {
          SendCertKeeps(x, known, w, id);
        } else {
          GiveUpKeeps(x, known, w, id);
        }
      }
    case Unpair(key) => UnpairedKeeps(x, known, w, key);
  }

  // Which step adds which event

  /** The request begins an attempt, unless its client has an entry. */
  predicate Begins(r: Request)
  {
    r.uniqueId.Some? && r.salt.Some? && r.clientCert.Some?
  }

  /** The step is a later request of the client that began the attempt. */
  ghost predicate Continues(step: Step, h: History)
  {
    && |h| > 0 && h[0].Requested?
    && step.Pair? && step.r.uniqueId.Some? && !Begins(step.r)
    && h[0].key == step.r.uniqueId.value + "@" + step.r.clientIp
  }

  /** The step is what event k in the history h of attempt id came from. */
  ghost predicate Causes(x: Crypto, step: Step, h: History, id: nat, k: nat)
  {
    && k < |h|
    && match h[k]
       case Requested(key, clientIp, salt, cert, secret) =>
         && k == 0 && step.Pair? && Begins(step.r) && step.secret == secret
         && key == step.r.uniqueId.value + "@" + step.r.clientIp && step.r.clientIp == clientIp
         && step.r.salt.value == salt && x.hexToStr(step.r.clientCert.value) == cert
       case PinEntered(pin) => k == 1 && h[0].Requested? && step == PostPin(pin, h[0].secret)
       case CertSent => k == 2 && step == Wake(id)
       case Challenged(serverSecret, challenge) =>
         && k == 3 && Continues(step, h) && step.r.clientChallenge.Some?
         && step.serverSecret == serverSecret && step.challenge == challenge
       case Hashed(hash) =>
         && k == 4 && Continues(step, h) && step.r.serverChallengeResp.Some? && h[1].PinEntered?
         && hash == ClientHash(x, AesKey(x, h[0].salt, h[1].pin), step.r.serverChallengeResp.value)
       case Finished(clientSecret, joined) =>
         k == 5 && Continues(step, h) && step.r.clientPairingSecret == Some(clientSecret)
  }

  /** The history of an attempt, empty before the attempt is made. */
  ghost function HistoryIn(hs: seq<History>, id: nat): History
  {
    if id < |hs| then hs[id] else []
  }

  /** The step added one event to attempt id, which may be a new one, and none to any other. */
  ghost predicate NextEvent(x: Crypto, step: Step, hs: seq<History>, hs': seq<History>, id: nat)
  {
    && id <= |hs| && |hs'| == (if id < |hs| then |hs| else |hs| + 1) && OnlyAt(hs, hs', id)
    && HistoryIn(hs, id) <= hs'[id] && |hs'[id]| == |HistoryIn(hs, id)| + 1
    && Causes(x, step, hs'[id], id, |HistoryIn(hs, id)|)
  }

  /** Nothing was added, or one event to one attempt. */
  ghost predicate GrownBy(x: Crypto, step: Step, hs: seq<History>, hs': seq<History>)
  {
    hs' == hs || exists id: nat :: NextEvent(x, step, hs, hs', id)
  }

  lemma GrownByEvent(x: Crypto, step: Step, hs: seq<History>, id: nat, e: Event)
    requires id < |hs| && Causes(x, step, hs[id] + [e], id, |hs[id]|)
    ensures GrownBy(x, step, hs, Extend(hs, id, e))
  {
    assert NextEvent(x, step, hs, Extend(hs, id, e), id);
  }

  lemma GrownByAttempt(x: Crypto, step: Step, hs: seq<History>, e: Event)
    requires Causes(x, step, [e], |hs|, 0)
    ensures GrownBy(x, step, hs, hs + [[e]])
  {
    assert NextEvent(x, step, hs, hs + [[e]], |hs|);
  }

  lemma PairGrows(x: Crypto, known: seq<string>, w: World, step: Step)
    requires Good(x, known, w) && step.Pair?
    ensures GrownBy(x, step, w.histories, Apply(x, known, w, step).histories)
  {
    var r := step.r;
    if Begins(r) {
      GrownByAttempt(x, step, w.histories,
                     Requested(r.Key(), r.clientIp, r.salt.value, x.hexToStr(r.clientCert.value), step.secret));
    } else if r.uniqueId.Some? && r.Key() in w.cache {
      EntryStepGrows(x, known, w, step);
    }
  }

  lemma EntryStepGrows(x: Crypto, known: seq<string>, w: World, step: Step)
    requires Good(x, known, w) && step.Pair? && step.r.uniqueId.Some? && !Begins(step.r) && step.r.Key() in w.cache
    ensures GrownBy(x, step, w.histories, Apply(x, known, w, step).histories)
  {
    var r := step.r;
    assert EntryIs(x, w.histories, w.cache, w.owner, r.Key());
    var c, id := w.cache[r.Key()], w.owner[r.Key()];
    if r.clientChallenge.Some? {
      if c.lastPhase == GetServerCert {
        GrownByEvent(x, step, w.histories, id, Challenged(step.serverSecret, step.challenge));
      }
    } else if r.serverChallengeResp.Some? && c.serverSecret.Some? {
      if c.lastPhase == ClientChallenge {
        GrownByEvent(x, step, w.histories, id, Hashed(ClientHash(x, c.aesKey, r.serverChallengeResp.value)));
      }
    } else if r.clientPairingSecret.Some? && c.serverChallenge.Some? && c.clientHash.Some? {
      var clientSecret := r.clientPairingSecret.value;
      GrownByEvent(x, step, w.histories, id, Finished(clientSecret, EntryPasses(x, c, clientSecret)));
    }
  }

  /** Histories are never rewritten: a step adds at most one event, to one attempt, and is what it came from. */
  lemma HistoriesGrow(x: Crypto, known: seq<string>, w: World, step: Step)
    requires Good(x, known, w)
    ensures GrownBy(x, step, w.histories, Apply(x, known, w, step).histories)
  {
    match step
    case Pair(r, secret, serverSecret, challenge) => PairGrows(x, known, w, step);
    case PostPin(pin, secret) =>
      if secret in w.pending {
        assert PendingIs(x, w.histories, w.threads, w.pending, secret);
        GrownByEvent(x, step, w.histories, w.pending[secret].id, PinEntered(pin));
      }
    case Wake(id) =>
      if id in w.threads {
        assert ThreadIs(x, w.histories, w.threads, id);
        if w.threads[id].pin.Some? {
          GrownByEvent(x, step, w.histories, id, CertSent);
        }
      }
    case Unpair(key) =>
  }

  // Runs

  ghost function Start(known: seq<string>): World
  {
    World(map[], known, map[], map[], [], map[])
  }

  ghost function Run(x: Crypto, known: seq<string>, steps: seq<Step>): (w: World)
    ensures Good(x, known, w)
  {
    if steps == [] then Start(known)
    else
      var k := |steps| - 1;
      ApplyKeeps(x, known, Run(x, known, steps[..k]), steps[k]);
      Apply(x, known, Run(x, known, steps[..k]), steps[k])
  }

  /** No two PINs are pending for the same address. */
  ghost predicate OnePinEach(pending: map<string, PendingPin>)
  {
    forall s, t :: s in pending && t in pending && pending[s].clientIp == pending[t].clientIp ==> s == t
  }

  /** A request forgets the PIN that is pending for its address; the user can only enter the newest one. */
  lemma {:induction false} OnePinPerAddress(x: Crypto, known: seq<string>, steps: seq<Step>)
    ensures OnePinEach(Run(x, known, steps).pending)
  {
    if steps != [] {
      var k := |steps| - 1;
      OnePinPerAddress(x, known, steps[..k]);
      StepKeepsOnePin(x, known, Run(x, known, steps[..k]), steps[k]);
    }
  }

  lemma StepKeepsOnePin(x: Crypto, known: seq<string>, w: World, step: Step)
    requires Good(x, known, w) && OnePinEach(w.pending)
    ensures OnePinEach(Apply(x, known, w, step).pending)
  {
    match step
    case Pair(r, secret, serverSecret, challenge) =>
      RequestsPin(x, known, w, r, secret, serverSecret, challenge);
      NewPinIsOnly(w.pending, r.clientIp, secret, |w.histories|);
    case PostPin(pin, secret) => PostedLeaves(x, known, w, pin, secret);
    case Wake(id) => WokenLeaves(x, known, w, id);
    case Unpair(key) =>
  }

  lemma PostedLeaves(x: Crypto, known: seq<string>, w: World, pin: string, secret: string)
    requires Good(x, known, w) && OnePinEach(w.pending)
    ensures OnePinEach(Posted(x, known, w, pin, secret).pending)
  {
    FewerPins(w.pending, Posted(x, known, w, pin, secret).pending, secret);
  }

  lemma WokenLeaves(x: Crypto, known: seq<string>, w: World, id: nat)
    requires Good(x, known, w) && OnePinEach(w.pending)
    ensures OnePinEach(Woken(x, known, w, id).pending)
  {
    if id in w.threads {
      FewerPins(w.pending, Woken(x, known, w, id).pending, w.threads[id].secret);
    }
  }

  lemma FewerPins(pending: map<string, PendingPin>, fewer: map<string, PendingPin>, secret: string)
    requires OnePinEach(pending) && (fewer == pending || fewer == pending - {secret})
    ensures OnePinEach(fewer)
  {
  }

  /** The only request that changes what is pending is one that begins an attempt. */
  lemma RequestsPin(x: Crypto, known: seq<string>, w: World, r: Request,
                    secret: string, serverSecret: string, challenge: string)
    requires Good(x, known, w)
    ensures Handled(x, known, w, r, secret, serverSecret, challenge).pending
         == if Begins(r) && r.Key() !in w.cache
            then Others(w.pending, r.clientIp)[secret := PendingPin(|w.histories|, r.clientIp)]
            else w.pending
  {
    if Begins(r) {
      assert Handled(x, known, w, r, secret, serverSecret, challenge)
          == if r.Key() in w.cache then Drop(w, r.Key())
             else Begin(w, r.Key(), r.clientIp, r.salt.value, x.hexToStr(r.clientCert.value), secret);
    } else if r.uniqueId.Some? && r.Key() in w.cache {
      LaterRequestsNoPin(x, known, w, r, secret, serverSecret, challenge);
    }
  }

  lemma LaterRequestsNoPin(x: Crypto, known: seq<string>, w: World, r: Request,
                           secret: string, serverSecret: string, challenge: string)
    requires Good(x, known, w) && r.uniqueId.Some? && !Begins(r) && r.Key() in w.cache
    ensures Handled(x, known, w, r, secret, serverSecret, challenge).pending == w.pending
  {
    var key, c := r.Key(), w.cache[r.Key()];
    var v := Handled(x, known, w, r, secret, serverSecret, challenge);
    assert EntryIs(x, w.histories, w.cache, w.owner, key);
    if r.clientChallenge.Some? {
      assert v == if c.lastPhase == GetServerCert then Challenge(w, key, serverSecret, challenge) else Drop(w, key);
    } else if r.serverChallengeResp.Some? && c.serverSecret.Some? {
      assert v == if c.lastPhase == ClientChallenge
                  then TakeHash(w, key, ClientHash(x, c.aesKey, r.serverChallengeResp.value)) else Drop(w, key);
    } else if r.clientPairingSecret.Some? && c.serverChallenge.Some? && c.clientHash.Some? {
      assert v == Finish(w, key, r.clientPairingSecret.value, EntryPasses(x, c, r.clientPairingSecret.value));
    }
  }

  lemma NewPinIsOnly(pending: map<string, PendingPin>, clientIp: string, secret: string, id: nat)
    requires OnePinEach(pending)
    ensures OnePinEach(Others(pending, clientIp)[secret := PendingPin(id, clientIp)])
  {
  }

  /** The history of attempt id after the first n steps of a run. */
  ghost function HistoryAt(x: Crypto, known: seq<string>, steps: seq<Step>, n: nat, id: nat): History
    requires n <= |steps|
  {
    HistoryIn(Run(x, known, steps[..n]).histories, id)
  }

  lemma RunNext(x: Crypto, known: seq<string>, steps: seq<Step>, n: nat)
    requires n < |steps|
    ensures Run(x, known, steps[..n + 1]) == Apply(x, known, Run(x, known, steps[..n]), steps[n])
  {
    assert steps[..n + 1][..n] == steps[..n];
  }

  /** Step n added event k to the history of attempt id. */
  ghost predicate AddsAt(x: Crypto, known: seq<string>, steps: seq<Step>, n: nat, id: nat, k: nat)
  {
    n < |steps| && |HistoryAt(x, known, steps, n, id)| == k && |HistoryAt(x, known, steps, n + 1, id)| == k + 1
  }

  /** What one step of a run does to the history of one attempt. */
  lemma HistoryStep(x: Crypto, known: seq<string>, steps: seq<Step>, n: nat, id: nat)
    requires n < |steps|
    ensures var h, h' := HistoryAt(x, known, steps, n, id), HistoryAt(x, known, steps, n + 1, id);
            h' == h || (h <= h' && AddsAt(x, known, steps, n, id, |h|) && Causes(x, steps[n], h', id, |h|))
  {
    var w := Run(x, known, steps[..n]);
    RunNext(x, known, steps, n);
    HistoriesGrow(x, known, w, steps[n]);
    var hs, hs' := w.histories, Apply(x, known, w, steps[n]).histories;
    if hs' != hs {
      var j: nat :| NextEvent(x, steps[n], hs, hs', j);
    }
  }

  /** A step adds no more than one event. */
  lemma OneEventAtATime(x: Crypto, known: seq<string>, steps: seq<Step>, n: nat, id: nat, k: nat, id': nat, k': nat)
    requires AddsAt(x, known, steps, n, id, k) && AddsAt(x, known, steps, n, id', k')
    ensures id == id' && k == k'
  {
    var w := Run(x, known, steps[..n]);
    RunNext(x, known, steps, n);
    HistoriesGrow(x, known, w, steps[n]);
    var hs, hs' := w.histories, Apply(x, known, w, steps[n]).histories;
    assert hs' != hs;
    var j: nat :| NextEvent(x, steps[n], hs, hs', j);
  }

  /** The histories of one attempt after 0, 1, 2, ... steps. */
  ghost function Past(x: Crypto, known: seq<string>, steps: seq<Step>, id: nat): (past: seq<History>)
    ensures |past| == |steps| + 1
    ensures forall n :: 0 <= n < |past| ==> past[n] == HistoryAt(x, known, steps, n, id)
  {
    seq(|steps| + 1, n requires 0 <= n < |steps| + 1 => HistoryAt(x, known, steps, n, id))
  }

  /** Step n leaves the history, or adds the event that it causes. */
  ghost predicate Follows(x: Crypto, steps: seq<Step>, id: nat, past: seq<History>, n: nat)
    requires n < |steps| < |past|
  {
    || past[n + 1] == past[n]
    || (past[n] <= past[n + 1] && |past[n + 1]| == |past[n]| + 1 && Causes(x, steps[n], past[n + 1], id, |past[n]|))
  }

  ghost predicate AllFollow(x: Crypto, steps: seq<Step>, id: nat, past: seq<History>)
  {
    && |past| == |steps| + 1 && past[0] == []
    && forall n :: 0 <= n < |steps| ==> Follows(x, steps, id, past, n)
  }

  lemma PastFollows(x: Crypto, known: seq<string>, steps: seq<Step>, id: nat)
    ensures AllFollow(x, steps, id, Past(x, known, steps, id))
  {
    var past := Past(x, known, steps, id);
    assert steps[..0] == [];
    forall n | 0 <= n < |steps|
      ensures Follows(x, steps, id, past, n)
    {
      HistoryStep(x, known, steps, n, id);
    }
  }

  lemma {:induction false} PastGrows(x: Crypto, steps: seq<Step>, id: nat, past: seq<History>, m: nat, n: nat)
    requires AllFollow(x, steps, id, past) && m <= n <= |steps|
    ensures past[m] <= past[n]
  {
    if m < n {
      PastGrows(x, steps, id, past, m, n - 1);
      assert Follows(x, steps, id, past, n - 1);
    }
  }

  /** As a run goes on, the history of every attempt only gets longer. */
  lemma HistoryOnlyGrows(x: Crypto, known: seq<string>, steps: seq<Step>, m: nat, n: nat, id: nat)
    requires m <= n <= |steps|
    ensures HistoryAt(x, known, steps, m, id) <= HistoryAt(x, known, steps, n, id)
  {
    PastFollows(x, known, steps, id);
    PastGrows(x, steps, id, Past(x, known, steps, id), m, n);
  }

  /** No event of an attempt is added twice. */
  lemma EventOnce(x: Crypto, known: seq<string>, steps: seq<Step>, m: nat, n: nat, id: nat, k: nat)
    requires AddsAt(x, known, steps, m, id, k) && AddsAt(x, known, steps, n, id, k)
    ensures m == n
  {
    if m < n {
      HistoryOnlyGrows(x, known, steps, m + 1, n, id);
    } else if n < m {
      HistoryOnlyGrows(x, known, steps, n + 1, m, id);
    }
  }

  /** Step n added event k of the history h. */
  ghost predicate CameFrom(x: Crypto, steps: seq<Step>, id: nat, past: seq<History>, n: nat, h: History, k: nat)
  {
    n < |steps| < |past| && |past[n]| == k && |past[n + 1]| == k + 1 && Causes(x, steps[n], h, id, k)
  }

  ghost predicate AllCameFrom(x: Crypto, steps: seq<Step>, id: nat, past: seq<History>, at: seq<nat>, h: History)
  {
    |at| == |h| && forall k :: 0 <= k < |at| ==> CameFrom(x, steps, id, past, at[k], h, k)
  }

  lemma CameFromStill(x: Crypto, steps: seq<Step>, id: nat, past: seq<History>, at: seq<nat>, h: History, more: History)
    requires AllCameFrom(x, steps, id, past, at, h) && h <= more
    ensures forall k :: 0 <= k < |at| ==> CameFrom(x, steps, id, past, at[k], more, k)
  {
    forall k | 0 <= k < |at|
      ensures CameFrom(x, steps, id, past, at[k], more, k)
    {
      assert CameFrom(x, steps, id, past, at[k], h, k);
      CausesStill(x, steps[at[k]], h, more, id, k);
    }
  }

  lemma CausesStill(x: Crypto, step: Step, h: History, more: History, id: nat, k: nat)
    requires Causes(x, step, h, id, k) && h <= more
    ensures Causes(x, step, more, id, k)
  {
  }

  lemma {:induction false} PastCameFrom(x: Crypto, steps: seq<Step>, id: nat, past: seq<History>, n: nat)
    returns (at: seq<nat>)
    requires AllFollow(x, steps, id, past) && n <= |steps|
    ensures Ascending(at, n) && AllCameFrom(x, steps, id, past, at, past[n])
  {
    if n == 0 {
      at := [];
    } else {
      at := PastCameFrom(x, steps, id, past, n - 1);
      assert Follows(x, steps, id, past, n - 1);
      if past[n] != past[n - 1] {
        OneMoreCameFrom(x, steps, id, past, at, n - 1);
        at := at + [n - 1];
      }
    }
  }

  lemma OneMoreCameFrom(x: Crypto, steps: seq<Step>, id: nat, past: seq<History>, before: seq<nat>, n: nat)
    requires n < |steps| < |past| && Ascending(before, n) && AllCameFrom(x, steps, id, past, before, past[n])
    requires Follows(x, steps, id, past, n) && past[n + 1] != past[n]
    ensures Ascending(before + [n], n + 1) && AllCameFrom(x, steps, id, past, before + [n], past[n + 1])
  {
    CameFromStill(x, steps, id, past, before, past[n], past[n + 1]);
    assert CameFrom(x, steps, id, past, n, past[n + 1], |before|);
  }

  /** The steps at these places, in this order, are the ones that the history of attempt id came from. */
  ghost predicate Traces(x: Crypto, known: seq<string>, steps: seq<Step>, n: nat, id: nat, at: seq<nat>)
    requires n <= |steps|
  {
    var h := HistoryAt(x, known, steps, n, id);
    && |at| == |h| && Ascending(at, n)
    && forall k :: 0 <= k < |at| ==> AddsAt(x, known, steps, at[k], id, k) && Causes(x, steps[at[k]], h, id, k)
  }

  /** Every event in the history of an attempt came from a step of the run, in order. */
  lemma EventsHaveSteps(x: Crypto, known: seq<string>, steps: seq<Step>, n: nat, id: nat) returns (at: seq<nat>)
    requires n <= |steps|
    ensures Traces(x, known, steps, n, id, at)
  {
    var past := Past(x, known, steps, id);
    PastFollows(x, known, steps, id);
    at := PastCameFrom(x, steps, id, past, n);
    forall k | 0 <= k < |at|
      ensures AddsAt(x, known, steps, at[k], id, k) && Causes(x, steps[at[k]], past[n], id, k)
    {
      assert CameFrom(x, steps, id, past, at[k], past[n], k);
    }
  }

  /**
   In every run a certificate is paired only if it was before, or for some attempt these steps
   happened in this order: a request with the certificate, the PIN for its secret, its thread
   going on, and the three later requests of the same client.  The key was made of the salt and
   the PIN.  The last request passed the final check: its secret, hashed with the challenge of
   the attempt and the signature of the certificate, gave what the client's response was under
   that key, and was signed by the certificate.
   */
  lemma PairedOnlyAfterPin(x: Crypto, known: seq<string>, steps: seq<Step>, cert: string)
    returns (id: nat, at: seq<nat>)
    requires cert in Run(x, known, steps).paired && cert !in known
    ensures var h := HistoryAt(x, known, steps, |steps|, id);
            && Traces(x, known, steps, |steps|, id, at) && |h| == 6
            && h[0].Requested? && h[0].cert == cert && h[1].PinEntered? && h[2].CertSent?
            && h[3].Challenged? && h[4].Hashed? && h[5].Finished?
            && KeyFrom(x, h[0].salt, h[1].pin, AesKey(x, h[0].salt, h[1].pin))
            && var s := x.hexToStr(h[5].clientSecret);
            && x.isCert(cert) && |s| >= 256
            && x.hexToStr(x.sha256(h[3].challenge + x.certSignature(cert) + s[..16])) == h[4].hash
            && x.verify(s[..16], s[16..if |s| < 272 then |s| else 272], x.certKey(cert))
            && steps[at[4]].Pair? && steps[at[4]].r.serverChallengeResp.Some?
            && h[4].hash == x.decrypt(x.hexToStr(steps[at[4]].r.serverChallengeResp.value),
                                      AesKey(x, h[0].salt, h[1].pin))
  {
    assert steps[..|steps|] == steps;
    var hs := Run(x, known, steps).histories;
    assert JoinedIn(x, hs, cert);
    id :| id < |hs| && Joined(x, hs[id], cert);
    at := EventsHaveSteps(x, known, steps, |steps|, id);
    var h := HistoryAt(x, known, steps, |steps|, id);
    assert Causes(x, steps[at[4]], h, id, 4);
    ClientPairsWhen(x, h[3].challenge, h[4].hash, h[5].clientSecret, cert);
  }

  /** The key is the first sixteen characters of the hash of salt and PIN. */
  ghost predicate KeyFrom(x: Crypto, salt: string, pin: string, key: string)
  {
    var k := x.hexToStr(x.sha256(x.hexToStr(salt) + pin));
    |key| == 16 && (|k| >= 16 ==> key == k[..16]) && (|k| < 16 ==> k <= key)
  }

  /** The final check, in the primitives. */
  lemma ClientPairsWhen(x: Crypto, challenge: string, hash: string, clientSecret: string, cert: string)
    ensures var s := x.hexToStr(clientSecret);
            ClientPairs(x, challenge, hash, clientSecret, cert) <==>
            && |s| >= 256 && x.hexToStr(x.sha256(challenge + x.certSignature(cert) + s[..16])) == hash
            && x.verify(s[..16], s[16..if |s| < 272 then |s| else 272], x.certKey(cert))
  {
  }

  /** The world before step n. */
  ghost function Before(x: Crypto, known: seq<string>, steps: seq<Step>, n: nat): (w: World)
    requires n <= |steps|
    ensures Good(x, known, w)
  {
    Run(x, known, steps[..n])
  }

  /** At step n a PIN is taken for this secret. */
  ghost predicate TakesPin(x: Crypto, known: seq<string>, steps: seq<Step>, n: nat, secret: string)
  {
    n < |steps| && steps[n].PostPin? && steps[n].secret == secret && secret in Before(x, known, steps, n).pending
  }

  predicate Draws(step: Step, secret: string)
  {
    step.Pair? && Begins(step.r) && step.secret == secret
  }

  lemma PinOfAttempt(x: Crypto, known: seq<string>, steps: seq<Step>, n: nat, secret: string)
    returns (id: nat, draw: nat)
    requires TakesPin(x, known, steps, n, secret)
    ensures AddsAt(x, known, steps, n, id, 1)
    ensures draw < n && Draws(steps[draw], secret) && AddsAt(x, known, steps, draw, id, 0)
  {
    var w := Before(x, known, steps, n);
    assert PendingIs(x, w.histories, w.threads, w.pending, secret);
    id := w.pending[secret].id;
    RunNext(x, known, steps, n);
    var at := EventsHaveSteps(x, known, steps, n, id);
    draw := at[0];
    assert Causes(x, steps[draw], HistoryAt(x, known, steps, n, id), id, 0);
  }

  /** Each PIN secret is used at most once: two PINs are taken only for secrets that were drawn twice. */
  lemma SecretUsedOnce(x: Crypto, known: seq<string>, steps: seq<Step>, m: nat, n: nat, secret: string)
    returns (a: nat, b: nat)
    requires m != n && TakesPin(x, known, steps, m, secret) && TakesPin(x, known, steps, n, secret)
    ensures a != b && a < m && b < n && Draws(steps[a], secret) && Draws(steps[b], secret)
  {
    var i, j;
    i, a := PinOfAttempt(x, known, steps, m, secret);
    j, b := PinOfAttempt(x, known, steps, n, secret);
    if i == j {
      EventOnce(x, known, steps, m, n, i, 1);
    }
    if a == b {
      OneEventAtATime(x, known, steps, a, i, 0, j, 0);
    }
  }

  /** The request gets to the final check, of an entry with this challenge. */
  ghost predicate Checks(w: World, r: Request, challenge: string)
  {
    && r.uniqueId.Some? && !Begins(r) && r.Key() in w.cache
    && var c := w.cache[r.Key()];
    && r.clientChallenge.None? && !(r.serverChallengeResp.Some? && c.serverSecret.Some?)
    && r.clientPairingSecret.Some? && c.serverChallenge == Some(challenge) && c.clientHash.Some?
  }

  ghost predicate ChecksAt(x: Crypto, known: seq<string>, steps: seq<Step>, n: nat, challenge: string)
  {
    n < |steps| && steps[n].Pair? && Checks(Before(x, known, steps, n), steps[n].r, challenge)
  }

  predicate Issues(step: Step, challenge: string)
  {
    step.Pair? && step.r.clientChallenge.Some? && step.challenge == challenge
  }

  lemma CheckOfAttempt(x: Crypto, known: seq<string>, steps: seq<Step>, n: nat, challenge: string)
    returns (id: nat, issue: nat)
    requires ChecksAt(x, known, steps, n, challenge)
    ensures AddsAt(x, known, steps, n, id, 5)
    ensures issue < n && Issues(steps[issue], challenge) && AddsAt(x, known, steps, issue, id, 3)
  {
    var w, key := Before(x, known, steps, n), steps[n].r.Key();
    assert EntryIs(x, w.histories, w.cache, w.owner, key);
    id := w.owner[key];
    RunNext(x, known, steps, n);
    var at := EventsHaveSteps(x, known, steps, n, id);
    issue := at[3];
    assert Causes(x, steps[issue], HistoryAt(x, known, steps, n, id), id, 3);
  }

  /** Each challenge is used at most once: two final checks use it only if it was issued twice. */
  lemma ChallengeUsedOnce(x: Crypto, known: seq<string>, steps: seq<Step>, m: nat, n: nat, challenge: string)
    returns (a: nat, b: nat)
    requires m != n && ChecksAt(x, known, steps, m, challenge) && ChecksAt(x, known, steps, n, challenge)
    ensures a != b && a < m && b < n && Issues(steps[a], challenge) && Issues(steps[b], challenge)
  {
    var i, j;
    i, a := CheckOfAttempt(x, known, steps, m, challenge);
    j, b := CheckOfAttempt(x, known, steps, n, challenge);
    if i == j {
      EventOnce(x, known, steps, m, n, i, 5);
    }
    if a == b {
      OneEventAtATime(x, known, steps, a, i, 3, j, 3);
    }
  }

  /** The world after several steps. */
  ghost function ApplyAll(x: Crypto, known: seq<string>, w: World, steps: seq<Step>): (v: World)
    requires Good(x, known, w)
    ensures Good(x, known, v)
  {
    if steps == [] then w
    else
      ApplyKeeps(x, known, ApplyAll(x, known, w, steps[..|steps| - 1]), steps[|steps| - 1]);
      Apply(x, known, ApplyAll(x, known, w, steps[..|steps| - 1]), steps[|steps| - 1])
  }

  lemma ApplyNext(x: Crypto, known: seq<string>, w: World, steps: seq<Step>, step: Step)
    requires Good(x, known, w)
    ensures ApplyAll(x, known, w, steps + [step]) == Apply(x, known, ApplyAll(x, known, w, steps), step)
  {
    assert (steps + [step])[..|steps|] == steps;
  }

  /** A request of a client without any of the values of the four phases. */
  function Bare(uniqueId: string, clientIp: string): Request
  {
    Request(Some(uniqueId), clientIp, None, None, None, None, None)
  }

  /** The request, the PIN, and the thread of attempt id going on. */
  function StartSteps(client: Request, salt: string, cert: string, secret: string, pin: string, id: nat):
    (steps: seq<Step>)
    ensures |steps| == 3
  {
    [Pair(client.(salt := Some(salt), clientCert := Some(cert)), secret, "", ""), PostPin(pin, secret), Wake(id)]
  }

  /** The first three steps of an attempt that nobody disturbs leave its entry in the cache. */
  lemma HonestStart(x: Crypto, known: seq<string>, w: World, client: Request, salt: string, cert: string,
                    secret: string, pin: string)
    requires Good(x, known, w) && client.uniqueId.Some? && client == Bare(client.uniqueId.value, client.clientIp)
    requires client.Key() !in w.cache
    ensures var v := ApplyAll(x, known, w, StartSteps(client, salt, cert, secret, pin, |w.histories|));
            && v.paired == w.paired && client.Key() in v.cache
            && var c := v.cache[client.Key()];
            && c == PairCache(x.hexToStr(cert), c.aesKey, GetServerCert, None, None, None)
            && KeyFrom(x, salt, pin, c.aesKey)
  {
    var id := |w.histories|;
    var steps := StartSteps(client, salt, cert, secret, pin, id);
    var w1 := Apply(x, known, w, steps[0]);
    HonestRequest(x, known, w, client, salt, cert, secret);
    var w2 := Apply(x, known, w1, steps[1]);
    HonestPin(x, known, w1, id, secret, pin);
    var v := Apply(x, known, w2, steps[2]);
    HonestWake(x, known, w2, id);
    ThreeSteps(x, known, w, steps[0], steps[1], steps[2], w1, w2, v);
    assert steps == [steps[0], steps[1], steps[2]];
  }

  lemma HonestWake(x: Crypto, known: seq<string>, w: World, id: nat)
    requires Good(x, known, w) && id in w.threads && w.threads[id].pin.Some?
    ensures var v, t := Apply(x, known, w, Wake(id)), w.threads[id];
            && v.paired == w.paired && t.key in v.cache
            && v.cache[t.key]
               == PairCache(t.cert, AesKey(x, t.salt, t.pin.value), GetServerCert, None, None, None)
  {
  }

  lemma HonestRequest(x: Crypto, known: seq<string>, w: World, client: Request, salt: string, cert: string,
                      secret: string)
    requires Good(x, known, w) && client.uniqueId.Some? && client == Bare(client.uniqueId.value, client.clientIp)
    requires client.Key() !in w.cache
    ensures var id := |w.histories|;
            var r := client.(salt := Some(salt), clientCert := Some(cert));
            var v := Apply(x, known, w, Pair(r, secret, "", ""));
            && Good(x, known, v) && v.paired == w.paired && v.cache == w.cache
            && secret in v.pending && v.pending[secret].id == id
            && id in v.threads && v.threads[id] == PinThread(secret, salt, x.hexToStr(cert), client.Key(), None)
  {
    var r := client.(salt := Some(salt), clientCert := Some(cert));
    ApplyKeeps(x, known, w, Pair(r, secret, "", ""));
  }

  lemma HonestPin(x: Crypto, known: seq<string>, w: World, id: nat, secret: string, pin: string)
    requires Good(x, known, w) && secret in w.pending && w.pending[secret].id == id && id in w.threads
    ensures var v := Apply(x, known, w, PostPin(pin, secret));
            && Good(x, known, v) && v.paired == w.paired && v.cache == w.cache
            && id in v.threads && v.threads[id] == w.threads[id].(pin := Some(pin))
  {
    ApplyKeeps(x, known, w, PostPin(pin, secret));
  }

  /**
   An attempt that nobody disturbs pairs the client exactly when the final check succeeds, and
   leaves no entry.
   */
  lemma HonestEnd(x: Crypto, known: seq<string>, w: World, client: Request, clientChallenge: string,
                  serverSecret: string, challenge: string, response: string, clientSecret: string)
    requires Good(x, known, w) && client.uniqueId.Some? && client == Bare(client.uniqueId.value, client.clientIp)
    requires client.Key() in w.cache && w.cache[client.Key()].lastPhase == GetServerCert
    ensures var c := w.cache[client.Key()];
            var steps := EndSteps(client, clientChallenge, serverSecret, challenge, response, clientSecret);
            var v := ApplyAll(x, known, w, steps);
            var s := x.hexToStr(clientSecret);
            var passes :=
              && x.isCert(c.clientCert) && |s| >= 256
              && x.hexToStr(x.sha256(challenge + x.certSignature(c.clientCert) + s[..16]))
                 == x.decrypt(x.hexToStr(response), c.aesKey)
              && x.verify(s[..16], s[16..if |s| < 272 then |s| else 272], x.certKey(c.clientCert));
            && v.paired == (if passes then w.paired + [c.clientCert] else w.paired)
            && v.cache == w.cache - {client.Key()}
  {
    var cert := w.cache[client.Key()].clientCert;
    ClientPairsWhen(x, challenge, ClientHash(x, w.cache[client.Key()].aesKey, response), clientSecret, cert);
    var steps := EndSteps(client, clientChallenge, serverSecret, challenge, response, clientSecret);
    var a, b, e := steps[0], steps[1], steps[2];
    HonestChallenge(x, known, w, client, clientChallenge, serverSecret, challenge);
    var w1 := Apply(x, known, w, a);
    HonestHash(x, known, w1, client, response);
    var w2 := Apply(x, known, w1, b);
    HonestFinish(x, known, w2, client, clientSecret);
    var v := Apply(x, known, w2, e);
    ThreeSteps(x, known, w, a, b, e, w1, w2, v);
    assert steps == [a, b, e];
    EntryAfterThree(x, w.cache, w1.cache, w2.cache, client.Key(), serverSecret, challenge, response, clientSecret);
  }

  lemma EntryAfterThree(x: Crypto, c0: map<string, PairCache>, c1: map<string, PairCache>, c2: map<string, PairCache>,
                        key: string, serverSecret: string, challenge: string, response: string, clientSecret: string)
    requires key in c0
    requires c1 == c0[key := c0[key].(lastPhase := ClientChallenge, serverSecret := Some(serverSecret),
                                      serverChallenge := Some(challenge))]
    requires c2 == c1[key := c1[key].(lastPhase := ServerChallengeResp,
                                      clientHash := Some(ClientHash(x, c1[key].aesKey, response)))]
    ensures c2 - {key} == c0 - {key} && c2[key].clientCert == c0[key].clientCert
    ensures EntryPasses(x, c2[key], clientSecret) <==>
            x.isCert(c0[key].clientCert) &&
            ClientPairs(x, challenge, ClientHash(x, c0[key].aesKey, response), clientSecret, c0[key].clientCert)
  {
  }

  lemma HonestChallenge(x: Crypto, known: seq<string>, w: World, client: Request, clientChallenge: string,
                        serverSecret: string, challenge: string)
    requires Good(x, known, w) && client.uniqueId.Some? && client == Bare(client.uniqueId.value, client.clientIp)
    requires client.Key() in w.cache && w.cache[client.Key()].lastPhase == GetServerCert
    ensures var c := w.cache[client.Key()];
            var v := Apply(x, known, w,
                           Pair(client.(clientChallenge := Some(clientChallenge)), "", serverSecret, challenge));
            && Good(x, known, v) && v.paired == w.paired
            && v.cache == w.cache[client.Key() := c.(lastPhase := ClientChallenge, serverSecret := Some(serverSecret),
                                                     serverChallenge := Some(challenge))]
  {
    ApplyKeeps(x, known, w, Pair(client.(clientChallenge := Some(clientChallenge)), "", serverSecret, challenge));
  }

  lemma HonestHash(x: Crypto, known: seq<string>, w: World, client: Request, response: string)
    requires Good(x, known, w) && client.uniqueId.Some? && client == Bare(client.uniqueId.value, client.clientIp)
    requires client.Key() in w.cache && w.cache[client.Key()].lastPhase == ClientChallenge
    ensures var c := w.cache[client.Key()];
            var v := Apply(x, known, w, Pair(client.(serverChallengeResp := Some(response)), "", "", ""));
            && Good(x, known, v) && v.paired == w.paired
            && v.cache == w.cache[client.Key() := c.(lastPhase := ServerChallengeResp,
                                                     clientHash := Some(ClientHash(x, c.aesKey, response)))]
  {
    PhaseDetermines(x, known, w, client.Key());
    ApplyKeeps(x, known, w, Pair(client.(serverChallengeResp := Some(response)), "", "", ""));
  }

  lemma HonestFinish(x: Crypto, known: seq<string>, w: World, client: Request, clientSecret: string)
    requires Good(x, known, w) && client.uniqueId.Some? && client == Bare(client.uniqueId.value, client.clientIp)
    requires client.Key() in w.cache && w.cache[client.Key()].lastPhase == ServerChallengeResp
    ensures var c := w.cache[client.Key()];
            var v := Apply(x, known, w, Pair(client.(clientPairingSecret := Some(clientSecret)), "", "", ""));
            && v.paired == (if EntryPasses(x, c, clientSecret) then w.paired + [c.clientCert] else w.paired)
            && v.cache == w.cache - {client.Key()}
  {
    PhaseDetermines(x, known, w, client.Key());
  }

  lemma ThreeSteps(x: Crypto, known: seq<string>, w: World, a: Step, b: Step, c: Step, w1: World, w2: World, v: World)
    requires Good(x, known, w) && w1 == Apply(x, known, w, a)
    requires Good(x, known, w1) && w2 == Apply(x, known, w1, b)
    requires Good(x, known, w2) && v == Apply(x, known, w2, c)
    ensures ApplyAll(x, known, w, [a, b, c]) == v
  {
    assert [a, b, c] == [] + [a] + [b] + [c];
    ApplyNext(x, known, w, [], a);
    ApplyNext(x, known, w, [] + [a], b);
    ApplyNext(x, known, w, [] + [a] + [b], c);
  }

  function EndSteps(client: Request, clientChallenge: string, serverSecret: string, challenge: string,
                    response: string, clientSecret: string):
    (steps: seq<Step>)
    ensures |steps| == 3
  {
    [Pair(client.(clientChallenge := Some(clientChallenge)), "", serverSecret, challenge),
     Pair(client.(serverChallengeResp := Some(response)), "", "", ""),
     Pair(client.(clientPairingSecret := Some(clientSecret)), "", "", "")]
  }

  // The server

  class PairingServer {
    const x: Crypto
    const known: seq<string>  // certificates that were paired before this run
    var pairingCache: map<string, PairCache>
    var pairedClients: seq<string>
    var pendingPins: map<string, PendingPin>
    var threads: map<nat, PinThread>
    var attempts: nat
    ghost var histories: seq<History>
    ghost var owner: map<string, nat>

    ghost function State(): World
      reads this
    {
      World(pairingCache, pairedClients, pendingPins, threads, histories, owner)
    }

    ghost predicate Valid()
      reads this
    {
      attempts == |histories| && Good(x, known, State())
    }

    constructor (x: Crypto, known: seq<string>)
      ensures Valid() && this.x == x && this.known == known && State() == Start(known)
    {
      this.x, this.known := x, known;
      pairingCache, pairedClients, pendingPins, threads, attempts := map[], known, map[], map[], 0;
      histories, owner := [], map[];
    }

    // A pairing request; secret, serverSecret and challenge are fresh random values.
    method HttpPair(r: Request, secret: string, serverSecret: string, challenge: string) returns (reply: Reply)
      requires Valid()
      modifies this
      ensures Valid() && State() == old(Handled(x, known, State(), r, secret, serverSecret, challenge))
      ensures reply == old(Answer(x, State(), r, serverSecret, challenge))
    {
      HandledKeeps(x, known, State(), r, secret, serverSecret, challenge);
      if r.uniqueId.None? {
        return Rejected("Received pair request without uniqueid, stopping.");
      }
      var key := r.Key();
      if r.salt.Some? && r.clientCert.Some? {
        reply := StartAttempt(key, r.clientIp, r.salt.value, x.hexToStr(r.clientCert.value), secret);
      } else if key !in pairingCache {
        reply := Rejected("Unable to find the client in the pairing cache");
      } else {
        reply := NextPhase(r, key, serverSecret, challenge);
      }
    }

    // Phase 1: a salt and a certificate; a thread waits for the user to enter the PIN under a new secret.
    method StartAttempt(key: string, clientIp: string, salt: string, cert: string, secret: string)
      returns (reply: Reply)
      requires Valid()
      modifies `pairingCache, `pendingPins, `threads, `attempts, `histories
      ensures attempts == |histories|
      ensures State() == if key in old(pairingCache) then Drop(old(State()), key)
                         else Begin(old(State()), key, clientIp, salt, cert, secret)
      ensures reply == if key in old(pairingCache) then Rejected("Out of order pair request (phase 1)") else Later
    {
      if key in pairingCache {
        pairingCache := pairingCache - {key};
        return Rejected("Out of order pair request (phase 1)");
      }
      ErasePending(clientIp);
      pendingPins := pendingPins[secret := PendingPin(attempts, clientIp)];
      threads := threads[attempts := PinThread(secret, salt, cert, key, None)];
      histories := histories + [[Requested(key, clientIp, salt, cert, secret)]];
      attempts := attempts + 1;
      reply := Later;
    }

    // Whatever is pending for the address is forgotten.
    method ErasePending(clientIp: string)
      modifies `pendingPins
      ensures pendingPins == Others(old(pendingPins), clientIp)
      ensures forall s :: s in pendingPins <==> s in old(pendingPins) && old(pendingPins[s].clientIp) != clientIp
      ensures forall s :: s in pendingPins ==> pendingPins[s] == old(pendingPins)[s]
    {
      ghost var before := pendingPins;
      var left := pendingPins.Keys;
      while left != {}
        invariant left <= before.Keys
        invariant pendingPins == map s | s in before && (s in left || before[s].clientIp != clientIp) :: before[s]
        decreases |left|
      {
        var s :| s in left;
        if pendingPins[s].clientIp == clientIp {
          pendingPins := pendingPins - {s};
        }
        left := left - {s};
      }
    }

    // Phases 2, 3 and 4 of a client with an entry.
    method NextPhase(r: Request, key: string, serverSecret: string, challenge: string) returns (reply: Reply)
      requires Valid() && r.uniqueId.Some? && key == r.Key() && key in pairingCache
      requires !(r.salt.Some? && r.clientCert.Some?)
      modifies `pairingCache, `pairedClients, `histories
      ensures attempts == |histories|
      ensures State() == old(Handled(x, known, State(), r, "", serverSecret, challenge))
      ensures reply == old(Answer(x, State(), r, serverSecret, challenge))
    {
      var cache := pairingCache[key];
      assert EntryIs(x, histories, pairingCache, owner, key);
      ghost var id := owner[key];
      if r.clientChallenge.Some? {
        if cache.lastPhase != GetServerCert {
          pairingCache := pairingCache - {key};
          return Rejected("Out of order pair request (phase 2)");
        }
        cache := cache.(lastPhase := ClientChallenge, serverSecret := Some(serverSecret),
                        serverChallenge := Some(challenge));
        pairingCache := pairingCache[key := cache];
        histories := Extend(histories, id, Challenged(serverSecret, challenge));
        return Accepted(ChallengeBody(x, cache.aesKey, r.clientChallenge.value, serverSecret, challenge));
      }
      if r.serverChallengeResp.Some? && cache.serverSecret.Some? {
        if cache.lastPhase != ClientChallenge {
          pairingCache := pairingCache - {key};
          return Rejected("Out of order pair request (phase 3)");
        }
        var hash := ClientHash(x, cache.aesKey, r.serverChallengeResp.value);
        cache := cache.(lastPhase := ServerChallengeResp, clientHash := Some(hash));
        pairingCache := pairingCache[key := cache];
        histories := Extend(histories, id, Hashed(hash));
        return Accepted(SecretBody(x, cache.serverSecret.value));
      }
      if r.clientPairingSecret.Some? && cache.serverChallenge.Some? && cache.clientHash.Some? {
        reply := LastPhase(key, r.clientPairingSecret.value);
        return;
      }
      reply := Silence;
    }

    // Phase 4: the final check.  A request out of order cannot get here.
    method LastPhase(key: string, clientSecret: string) returns (reply: Reply)
      requires Valid() && key in pairingCache
      requires pairingCache[key].serverChallenge.Some? && pairingCache[key].clientHash.Some?
      modifies `pairingCache, `pairedClients, `histories
      ensures attempts == |histories| && key in old(owner) && old(owner[key]) < |old(histories)|
      ensures State() == Finish(old(State()), key, clientSecret, EntryPasses(x, old(pairingCache[key]), clientSecret))
      ensures reply == LastAnswer(x, old(pairingCache[key]), clientSecret)
    {
      PhaseDetermines(x, known, State(), key);
      assert EntryIs(x, histories, pairingCache, owner, key);
      var cache := pairingCache[key];
      if cache.lastPhase != ServerChallengeResp {
        assert false;
      }
      var paired := false;
      if !x.isCert(cache.clientCert) {
        reply := Rejected("Unable to parse client certificate");
      } else {
        paired := ClientPairs(x, cache.serverChallenge.value, cache.clientHash.value, clientSecret, cache.clientCert);
        reply := if paired then Accepted("") else Rejected("Failed pairing");
        if paired {
          pairedClients := pairedClients + [cache.clientCert];
        }
      }
      histories := Extend(histories, owner[key], Finished(clientSecret, paired));
      pairingCache := pairingCache - {key};
    }

    // The user enters a PIN.
    method PostPin(pin: string, secret: string) returns (found: bool)
      requires Valid()
      modifies `pendingPins, `threads, `histories
      ensures Valid() && State() == old(Posted(x, known, State(), pin, secret))
      ensures found <==> secret in old(pendingPins)
      ensures secret !in pendingPins
    {
      if secret !in pendingPins {
        return false;
      }
      EnterPinKeeps(x, known, State(), secret, pin);
      var id := pendingPins[secret].id;
      threads := threads[id := threads[id].(pin := Some(pin))];
      histories := Extend(histories, id, PinEntered(pin));
      pendingPins := pendingPins - {secret};
      found := true;
    }

    // A thread wakes up, because its PIN was entered or because the time is over.
    method WakeThread(id: nat) returns (reply: Reply)
      requires Valid() && id in threads
      modifies `pairingCache, `pendingPins, `threads, `histories, `owner
      ensures Valid() && State() == old(Woken(x, known, State(), id))
      ensures reply == if old(threads[id]).pin.Some? then Accepted(x.strToHex(x.serverCert))
                       else Rejected("Timed out waiting for PIN")
    {
      var t := threads[id];
      if t.pin.None? {
        GiveUpKeeps(x, known, State(), id);
        pendingPins := pendingPins - {t.secret};
        threads := threads - {id};
        return Rejected("Timed out waiting for PIN");
      }
      SendCertKeeps(x, known, State(), id);
      var entry := PairCache(t.cert, AesKey(x, t.salt, t.pin.value), GetServerCert, None, None, None);
      pairingCache := pairingCache[t.key := entry];
      owner := owner[t.key := id];
      histories := Extend(histories, id, CertSent);
      threads := threads - {id};
      reply := Accepted(x.strToHex(x.serverCert));
    }

    // A client that has an entry can take its certificate back.
    method Unpair(key: string)
      requires Valid()
      modifies `pairedClients
      ensures Valid() && State() == Unpaired(old(State()), key)
      ensures forall c :: c in pairedClients <==>
                c in old(pairedClients) && !(key in pairingCache && c == pairingCache[key].clientCert)
    {
      if key in pairingCache {
        pairedClients := Without(pairedClients, pairingCache[key].clientCert);
      }
    }
  }
}
