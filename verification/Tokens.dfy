/** The tokens that prove an announcer controls its address: a hash of the address
    under a secret that is replaced at random times, with the previous secret kept. */
module Tokens {
  import opened Ids
  import opened Net

  type Secret = s: seq<Byte> | |s| == 8 witness [0, 0, 0, 0, 0, 0, 0, 0]
  type Token = s: seq<Byte> | |s| == 8 witness [0, 0, 0, 0, 0, 0, 0, 0]

  // dht_hash, of the secret, the address and the port: any function at all
  type Hash = seq<Byte> -> Token

  // The port as it lies in memory after another htons on a little-endian host: low byte
  // first
  function PortBytes(p: Port): (b: seq<Byte>)
    ensures |b| == 2
  {
    [(p % 256) as bv8, (p / 256) as bv8]
  }

  // The octets that are hashed
  function Hashed(secret: Secret, sa: Addr): seq<Byte>
  {
    secret + (match sa case V4(ip, p) => ip + PortBytes(p) case V6(ip, p) => ip + PortBytes(p))
  }

  function TokenOf(h: Hash, secret: Secret, sa: Addr): Token
  {
    h(Hashed(secret, sa))
  }

  lemma PortBytesInjective(p: Port, q: Port)
    requires PortBytes(p) == PortBytes(q)
    ensures p == q
  {
    ByteNumber(p / 256);
    ByteNumber(q / 256);
    ByteNumber(p % 256);
    ByteNumber(q % 256);
    assert PortBytes(p)[0] == PortBytes(q)[0] && PortBytes(p)[1] == PortBytes(q)[1];
  }

  function IpOf(sa: Addr): seq<Byte>
  {
    match sa case V4(ip, p) => ip case V6(ip, p) => ip
  }

  lemma HashedParts(a: Secret, x: Addr)
    ensures var s := Hashed(a, x);
      |s| == 10 + |IpOf(x)| && s[..8] == a && s[8..|s| - 2] == IpOf(x) && s[|s| - 2..] == PortBytes(x.port)
  {
    hide PortBytes;
  }

  // Secret, address and port can all be told from the octets hashed: no two of them
  // ever share a token unless the hash function collides.
  lemma HashedIsInjective(a: Secret, x: Addr, b: Secret, y: Addr)
    requires Hashed(a, x) == Hashed(b, y)
    ensures a == b && x == y
  {
    hide Hashed, PortBytes;
    HashedParts(a, x);
    HashedParts(b, y);
    PortBytesInjective(x.port, y.port);
  }

  // secret, oldsecret and rotate_secrets_time
  datatype Secrets = Secrets(current: Secret, previous: Secret, rotateTime: int)

  function Rotated(s: Secrets, now: int, random: nat, bytes: Secret): Secrets
  {
    Secrets(bytes, s.current, now + 900 + random % 1800)
  }

  predicate Matches(h: Hash, s: Secrets, token: seq<Byte>, sa: Addr)
  {
    |token| == 8 && (token == TokenOf(h, s.current, sa) || token == TokenOf(h, s.previous, sa))
  }

  class TokenMaker {
    const hash: Hash
    var secret: Secret
    var oldsecret: Secret
    var rotateTime: int

    function Value(): Secrets
      reads this
    {
      Secrets(secret, oldsecret, rotateTime)
    }

    // The part of dht_init that concerns tokens
    constructor (h: Hash, now: int, random: nat, bytes: Secret)
      ensures hash == h && secret == bytes && rotateTime == now + 900 + random % 1800
    {
      hash := h;
      secret, oldsecret := bytes, [0, 0, 0, 0, 0, 0, 0, 0];
      rotateTime := now + 900 + random % 1800;
    }

    // make_token: the octets to be hashed are put together for the address family.
    method MakeToken(sa: Addr, old': bool) returns (token: Token)
      ensures token == TokenOf(hash, if old' then oldsecret else secret, sa)
    {
      var ip: seq<Byte>;
      var port: seq<Byte>;
      match sa {
        case V4(ip4, p) =>
          ip, port := ip4, PortBytes(p);
        case V6(ip6, p) =>
          ip, port := ip6, PortBytes(p);
      }
      var s := if old' then oldsecret else secret;
      assert s + (ip + port) == s + ip + port;
      token := hash(s + ip + port);
    }

    // token_match
    method TokenMatch(token: seq<Byte>, sa: Addr) returns (ok: bool)
      ensures ok <==> Matches(hash, Value(), token, sa)
    {
      if |token| != 8 {
        return false;
      }
      var t := MakeToken(sa, false);
      if t == token {
        return true;
      }
      t := MakeToken(sa, true);
      if t == token {
        return true;
      }
      ok := false;
    }

    // rotate_secrets
    method RotateSecrets(now: int, random: nat, bytes: Secret)
      modifies this
      ensures Value() == Rotated(old(Value()), now, random, bytes)
    {
      rotateTime := now + 900 + random % 1800;
      oldsecret := secret;
      secret := bytes;
    }

    // The end of dht_periodic
    method Periodic(now: int, random: nat, bytes: Secret)
      modifies this
      ensures Value() == AfterCall(old(Value()), Call(now, random, bytes))
    {
      if now >= rotateTime {
        RotateSecrets(now, random, bytes);
      }
    }
  }

  // ----- whole runs -----

  // One call of dht_periodic: a message, if any, is handled at time now before the
  // secrets are rotated; random and bytes are what the random source would give.
  datatype Call = Call(now: int, random: nat, bytes: Secret)

  function AfterCall(s: Secrets, c: Call): Secrets
  {
    if c.now >= s.rotateTime then Rotated(s, c.now, c.random, c.bytes) else s
  }

  // The secrets when the message of call i is handled
  function Before(s: Secrets, calls: seq<Call>, i: nat): Secrets
    requires i <= |calls|
  {
    if i == 0 then s else AfterCall(Before(s, calls, i - 1), calls[i - 1])
  }

  // When the time has come, the next call makes the random octets the secret and keeps the
  // old one, and the time comes again 900 to 2699 seconds later; before, nothing changes.
  lemma CallRotates(s: Secrets, c: Call)
    ensures c.now < s.rotateTime ==> AfterCall(s, c) == s
    ensures c.now >= s.rotateTime ==>
      && AfterCall(s, c).current == c.bytes && AfterCall(s, c).previous == s.current
      && c.now + 900 <= AfterCall(s, c).rotateTime <= c.now + 2699
  {}

  // A secret is forgotten: with two calls, each after the time had come, tokens made under it
  // are refused, unless the hash function collides.
  lemma SecretIsForgotten(h: Hash, s: Secrets, c: Call, d: Call, sa: Addr)
    requires c.now >= s.rotateTime && d.now >= c.now + 2699
    requires TokenOf(h, s.current, sa) != TokenOf(h, c.bytes, sa)
    requires TokenOf(h, s.current, sa) != TokenOf(h, d.bytes, sa)
    ensures !Matches(h, AfterCall(AfterCall(s, c), d), TokenOf(h, s.current, sa), sa)
  {}

  // The clock never goes back.
  ghost predicate Forward(calls: seq<Call>)
  {
    forall i: nat, j: nat | i < j < |calls| :: calls[i].now <= calls[j].now
  }

  // A secret in use at time since is still current, or it is the previous one and
  // will stay so until 900 seconds after since.
  predicate Remembers(s: Secrets, secret: Secret, since: int)
  {
    s.current == secret || (s.previous == secret && s.rotateTime >= since + 900)
  }

  lemma {:induction false} SecretIsRemembered(s: Secrets, calls: seq<Call>, i: nat, j: nat)
    requires Forward(calls) && i <= j < |calls| && calls[j].now < calls[i].now + 900
    ensures Remembers(Before(s, calls, j), Before(s, calls, i).current, calls[i].now)
  {
    if i < j {
      assert calls[j - 1].now <= calls[j].now;
      SecretIsRemembered(s, calls, i, j - 1);
      assert i < j - 1 ==> calls[i].now <= calls[j - 1].now;
    }
  }

  // A token handed out in call i is accepted in every later call less than 900
  // seconds after it, whatever the random delays and secrets.
  lemma TokenIsAccepted(h: Hash, s: Secrets, calls: seq<Call>, i: nat, j: nat, sa: Addr)
    requires Forward(calls) && i <= j < |calls| && calls[j].now < calls[i].now + 900
    ensures Matches(h, Before(s, calls, j), TokenOf(h, Before(s, calls, i).current, sa), sa)
  {
    SecretIsRemembered(s, calls, i, j);
  }

  // The same of the code: a token made in call i is accepted in call j.
  method Replay(h: Hash, start: Call, calls: seq<Call>, i: nat, j: nat, sa: Addr) returns (ok: bool)
    requires Forward(calls) && i <= j < |calls|
    ensures calls[j].now < calls[i].now + 900 ==> ok
  {
    var t := new TokenMaker(h, start.now, start.random, start.bytes);
    ghost var s := t.Value();
    var token: Token := [0, 0, 0, 0, 0, 0, 0, 0];
    for k := 0 to j
      invariant fresh(t) && t.hash == h && t.Value() == Before(s, calls, k)
      invariant i < k ==> token == TokenOf(h, Before(s, calls, i).current, sa)
    {
      if k == i {
        token := t.MakeToken(sa, false);
      }
      t.Periodic(calls[k].now, calls[k].random, calls[k].bytes);
    }
    if i == j {
      token := t.MakeToken(sa, false);
    }
    ok := t.TokenMatch(token, sa);
    if calls[j].now < calls[i].now + 900 {
      TokenIsAccepted(h, s, calls, i, j, sa);
    }
  }

  // 900 seconds is the exact bound: a run in which the token fails right then.
  lemma TokenMayExpire(h: Hash, sa: Addr, a: Secret, b: Secret, c: Secret)
    requires TokenOf(h, a, sa) != TokenOf(h, b, sa) && TokenOf(h, a, sa) != TokenOf(h, c, sa)
    ensures var calls := [Call(0, 0, b), Call(900, 0, c), Call(900, 0, c)];
      !Matches(h, Before(Secrets(a, a, 0), calls, 2), TokenOf(h, Before(Secrets(a, a, 0), calls, 0).current, sa), sa)
  {
    var calls := [Call(0, 0, b), Call(900, 0, c), Call(900, 0, c)];
    var s := Secrets(a, a, 0);
    assert Before(s, calls, 1) == Secrets(b, a, 900);
    assert Before(s, calls, 2) == Secrets(c, b, 1800);
  }
}
