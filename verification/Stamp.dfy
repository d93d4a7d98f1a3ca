/**
 DNS stamps, read by three independent parsers: the validator, the translator to a command-line
 address, and the canonicaliser, which reads without bounds checks because it trusts the validator.
 Stamps are taken after base64 decoding.
 */
module Stamp {
  import opened Tables

  newtype byte = x: int | 0 <= x < 256

  type Bytes = seq<byte>

  /** What a stamp says; fields a protocol does not carry are empty. */
  datatype Fields = Fields(protocol: byte, address: Bytes, key: Bytes, provider: Bytes, host: Bytes, path: Bytes)

  /** The host and address syntax checks of the URL and IP libraries. */
  datatype Checks = Checks(addressOk: Bytes -> bool, hostOk: Bytes -> bool)

  const UDP: byte := 0
  const DNSCRYPT: byte := 1
  const DOH: byte := 2
  const DOT: byte := 3
  const DOQ: byte := 4
  const SLASH: byte := 47

  // ----- The format -----

  /** A length-prefixed field. */
  function Lp(s: Bytes): Bytes
    requires |s| < 256
  {
    [|s| as byte] + s
  }

  /** n empty entries of a variable-length list; bit 7 says that another entry follows. */
  function Empties(n: nat): (s: Bytes)
    requires 1 <= n
    ensures |s| == n
  {
    if n == 1 then [0] else [128] + Empties(n - 1)
  }

  function Optional(n: nat): Bytes {
    if n == 0 then [] else Empties(n)
  }

  predicate Acceptable(f: Fields, c: Checks) {
    && |f.address| < 256 && |f.key| < 256 && |f.provider| < 256 && |f.host| < 256 && |f.path| < 256
    && f.protocol <= DOQ
    && (f.protocol <= DNSCRYPT ==> f.address != [] && c.addressOk(f.address) && f.host == [])
    && (f.protocol == DNSCRYPT ==> |f.key| == 32 && f.provider != [])
    && (f.protocol != DNSCRYPT ==> f.key == [] && f.provider == [])
    && (DOH <= f.protocol ==> f.address == [] && c.hostOk(f.host))
    && (f.protocol == DOH ==> f.path != [] && f.path[0] == SLASH)
    && (f.protocol != DOH ==> f.path == [])
  }

  /** The byte form: protocol, eight property bytes, and the protocol's fields. The certificate hashes
      and the bootstrap addresses are lists that may only hold empty entries. */
  function Encode(f: Fields, props: Bytes, hashes: nat, bootstraps: nat): Bytes
    requires |props| == 8 && 1 <= hashes
    requires |f.address| < 256 && |f.key| < 256 && |f.provider| < 256 && |f.host| < 256 && |f.path| < 256
  {
    var head := [f.protocol] + props + Lp(f.address);
    if f.protocol == UDP then head
    else if f.protocol == DNSCRYPT then head + Lp(f.key) + Lp(f.provider)
    else if f.protocol == DOH then head + Empties(hashes) + Lp(f.host) + Lp(f.path) + Optional(bootstraps)
    else head + Empties(hashes) + Lp(f.host) + Optional(bootstraps)
  }

  // ----- Reading, with bounds checks -----

  datatype Field = Field(value: Bytes, next: nat)

  function ReadField(b: Bytes, pos: nat): (r: Option<Field>)
    ensures r.Some? ==> pos < r.value.next <= |b| && |r.value.value| < 256
                        && r.value.next == pos + 1 + |r.value.value| && b[pos..r.value.next] == Lp(r.value.value)
    ensures r.None? ==> |b| <= pos || |b| < pos + 1 + b[pos] as int
  {
    if |b| <= pos then None
    else
      var n := b[pos] as int;
      if |b| < pos + 1 + n then None else Some(Field(b[pos + 1..pos + 1 + n], pos + 1 + n))
  }

  /** The position after a list of empty entries. */
  function SkipEmpties(b: Bytes, pos: nat): (r: Option<nat>)
    decreases |b| - pos
  {
    if |b| <= pos || b[pos] % 128 != 0 then None
    else if b[pos] < 128 then Some(pos + 1)
    else SkipEmpties(b, pos + 1)
  }

  predicate EndsWithEmpties(b: Bytes, pos: nat) {
    pos == |b| || SkipEmpties(b, pos) == Some(|b|)
  }

  /** The reading of the whole stamp, in one expression. */
  function Parse(b: Bytes, c: Checks): Option<Fields> {
    if |b| < 10 || DOQ < b[0] then None
    else
      var p := b[0];
      var address := ReadField(b, 9);
      if address.None? then None
      else if p <= DNSCRYPT then
        if address.value.value == [] || !c.addressOk(address.value.value) then None
        else if p == UDP then
          if address.value.next == |b| then Some(Fields(p, address.value.value, [], [], [], [])) else None
        else ParseKey(b, p, address.value)
      else if address.value.value != [] then None
      else
        var after := SkipEmpties(b, address.value.next);
        if after.None? then None else ParseHost(b, p, after.value, c)
  }

  function ParseKey(b: Bytes, p: byte, address: Field): Option<Fields> {
    var key := ReadField(b, address.next);
    if key.None? || |key.value.value| != 32 then None
    else
      var provider := ReadField(b, key.value.next);
      if provider.None? || provider.value.value == [] || provider.value.next != |b| then None
      else Some(Fields(p, address.value, key.value.value, provider.value.value, [], []))
  }

  function ParseHost(b: Bytes, p: byte, pos: nat, c: Checks): Option<Fields> {
    var host := ReadField(b, pos);
    if host.None? || !c.hostOk(host.value.value) then None
    else if p == DOH then
      var path := ReadField(b, host.value.next);
      if path.None? || path.value.value == [] || path.value.value[0] != SLASH || !EndsWithEmpties(b, path.value.next) then None
      else Some(Fields(p, [], [], [], host.value.value, path.value.value))
    else if EndsWithEmpties(b, host.value.next) then Some(Fields(p, [], [], [], host.value.value, []))
    else None
  }

  // ----- The validator -----

  method ReadLp(b: Bytes, pos: nat) returns (ok: bool, value: Bytes, next: nat)
    ensures ok <==> ReadField(b, pos).Some?
    ensures ok ==> ReadField(b, pos) == Some(Field(value, next))
  {
    if |b| <= pos {
      return false, [], pos;
    }
    var n := b[pos] as int;
    if |b| < pos + 1 + n {
      return false, [], pos + 1;
    }
    return true, b[pos + 1..pos + 1 + n], pos + 1 + n;
  }

  /** Certificate hashes: every entry must be empty. */
  method SkipHashes(b: Bytes, start: nat) returns (ok: bool, pos: nat)
    ensures ok <==> SkipEmpties(b, start).Some?
    ensures ok ==> SkipEmpties(b, start) == Some(pos)
  {
    pos := start;
    var more := true;
    while more
      invariant if more then SkipEmpties(b, start) == SkipEmpties(b, pos) else SkipEmpties(b, start) == Some(pos)
      invariant pos <= |b| || pos == start
      decreases if more then |b| - pos + 1 else 0
    {
      if |b| <= pos {
        return false, pos;
      }
      var n := b[pos] as int;
      more := 128 <= n;
      if n % 128 != 0 {
        return false, pos;
      }
      pos := pos + 1;
    }
    ok := true;
  }

  /** Bootstrap addresses: nothing, or one list of empty entries up to the end. */
  method SkipBootstraps(b: Bytes, start: nat) returns (ok: bool)
    requires start <= |b|
    ensures ok <==> EndsWithEmpties(b, start)
  {
    var pos := start;
    while pos < |b|
      invariant start <= pos <= |b|
      invariant EndsWithEmpties(b, start) <==> EndsWithEmpties(b, pos)
    {
      var n := b[pos] as int;
      var more := 128 <= n;
      if n % 128 != 0 {
        return false;
      }
      if more && pos + 1 == |b| {
        assert SkipEmpties(b, pos + 1) == None;
        return false;
      }
      if !more && pos + 1 < |b| {
        return false;
      }
      pos := pos + 1;
    }
    return true;
  }

  /** Accepts exactly the stamps the format describes, and reports the fields it saw. */
  method ValidateStamp(b: Bytes, c: Checks) returns (fields: Option<Fields>)
    ensures fields == Parse(b, c)
  {
    hide EndsWithEmpties, SkipEmpties;
    if |b| < 10 {
      return None;
    }
    var p := b[0];
    if DOQ < p {
      return None;
    }
    var ok, address, pos := ReadLp(b, 9);
    if !ok {
      return None;
    }
    if address != [] && DOH <= p {
      return None;
    }
    if address != [] {
      if !c.addressOk(address) {
        return None;
      }
    } else if p < DOH {
      return None;
    }
    if p == UDP {
      return if pos == |b| then Some(Fields(p, address, [], [], [], [])) else None;
    }
    if p == DNSCRYPT {
      var key, provider: Bytes;
      ok, key, pos := ReadLp(b, pos);
      if !ok || |key| != 32 {
        return None;
      }
      ok, provider, pos := ReadLp(b, pos);
      if !ok || provider == [] {
        return None;
      }
      return if pos == |b| then Some(Fields(p, address, key, provider, [], [])) else None;
    }
    ok, pos := SkipHashes(b, pos);
    if !ok {
      return None;
    }
    var host, path: Bytes;
    path := [];
    ok, host, pos := ReadLp(b, pos);
    if !ok || !c.hostOk(host) {
      return None;
    }
    if p == DOH {
      ok, path, pos := ReadLp(b, pos);
      if !ok || path == [] || path[0] != SLASH {
        return None;
      }
    }
    ok := SkipBootstraps(b, pos);
    return if ok then Some(Fields(p, [], [], [], host, path)) else None;
  }

  // ----- Accepted stamps are exactly the well-formed ones -----

  lemma FieldAt(b: Bytes, pos: nat, s: Bytes)
    requires |s| < 256 && pos + 1 + |s| <= |b| && b[pos..pos + 1 + |s|] == Lp(s)
    ensures ReadField(b, pos) == Some(Field(s, pos + 1 + |s|))
  {
    assert b[pos] == b[pos..pos + 1 + |s|][0] == |s| as byte;
    assert b[pos + 1..pos + 1 + |s|] == b[pos..pos + 1 + |s|][1..] == s;
  }

  lemma {:induction false} EmptiesAt(b: Bytes, pos: nat, n: nat)
    requires 1 <= n && pos + n <= |b| && b[pos..pos + n] == Empties(n)
    ensures SkipEmpties(b, pos) == Some(pos + n)
    decreases n
  {
    var list := b[pos..pos + n];
    assert b[pos] == list[0];
    if n > 1 {
      assert b[pos + 1..pos + n] == list[1..] == Empties(n - 1);
      EmptiesAt(b, pos + 1, n - 1);
    }
  }

  lemma {:induction false} SkippedIsEmpties(b: Bytes, pos: nat)
    requires SkipEmpties(b, pos).Some?
    ensures pos < SkipEmpties(b, pos).value <= |b|
    ensures b[pos..SkipEmpties(b, pos).value] == Empties(SkipEmpties(b, pos).value - pos)
    decreases |b| - pos
  {
    var end := SkipEmpties(b, pos).value;
    if 128 <= b[pos] {
      SkippedIsEmpties(b, pos + 1);
      assert b[pos] == 128;
      assert b[pos..end] == [b[pos]] + b[pos + 1..end];
    } else {
      assert b[pos] == 0;
      assert b[pos..end] == [b[pos]];
    }
  }

  /** Five consecutive pieces can be cut back out of their concatenation. */
  lemma Pieces(a: Bytes, x: Bytes, y: Bytes, z: Bytes, w: Bytes)
    ensures var b := a + x + y + z + w;
            var i := |a| + |x|;
            var j := i + |y|;
            var k := j + |z|;
            && b[..|a|] == a && b[|a|..i] == x && b[i..j] == y && b[j..k] == z && b[k..] == w
  {
  }

  lemma OptionalAt(b: Bytes, pos: nat, n: nat)
    requires pos <= |b| && b[pos..] == Optional(n)
    ensures EndsWithEmpties(b, pos)
  {
    if n > 0 {
      assert b[pos..pos + n] == b[pos..];
      EmptiesAt(b, pos, n);
    }
  }

  /** Everything the format describes is accepted, with the fields it was built from. */
  lemma WellFormedIsAccepted(f: Fields, props: Bytes, hashes: nat, bootstraps: nat, c: Checks)
    requires Acceptable(f, c) && |props| == 8 && 1 <= hashes
    ensures Parse(Encode(f, props, hashes, bootstraps), c) == Some(f)
  {
    hide SkipEmpties, EndsWithEmpties, Empties, Optional, ReadField, Lp;
    var b := Encode(f, props, hashes, bootstraps);
    var start := [f.protocol] + props;
    var tail := Optional(bootstraps);
    LpSize(f.address); LpSize(f.key); LpSize(f.provider); LpSize(f.host); LpSize(f.path);
    if f.protocol == UDP {
      Pieces(start, Lp(f.address), [], [], []);
      assert b == start + Lp(f.address) + [] + [] + [];
      FieldAt(b, 9, f.address);
    } else if f.protocol == DNSCRYPT {
      Pieces(start, Lp(f.address), Lp(f.key), Lp(f.provider), []);
      assert b == start + Lp(f.address) + Lp(f.key) + Lp(f.provider) + [];
      FieldAt(b, 9, f.address);
      FieldAt(b, 10 + |f.address|, f.key);
      FieldAt(b, 11 + |f.address| + |f.key|, f.provider);
    } else {
      AcceptedList(f, props, hashes, bootstraps, c);
    }
  }

  lemma LpSize(s: Bytes)
    requires |s| < 256
    ensures |Lp(s)| == |s| + 1
  {
  }

  lemma AcceptedList(f: Fields, props: Bytes, hashes: nat, bootstraps: nat, c: Checks)
    requires Acceptable(f, c) && |props| == 8 && 1 <= hashes && DOH <= f.protocol
    ensures Parse(Encode(f, props, hashes, bootstraps), c) == Some(f)
  {
    hide SkipEmpties, EndsWithEmpties, Empties, Optional, ReadField, Lp;
    var b := Encode(f, props, hashes, bootstraps);
    PiecesOfList(f, props, hashes, bootstraps, c);
    hide Encode;
    FieldAt(b, 9, f.address);
    EmptiesAt(b, 10, hashes);
    FieldAt(b, 10 + hashes, f.host);
    var next := 11 + hashes + |f.host|;
    if f.protocol == DOH {
      FieldAt(b, next, f.path);
      OptionalAt(b, next + 1 + |f.path|, bootstraps);
    } else {
      OptionalAt(b, next, bootstraps);
    }
  }

  /** Where the pieces of an encoding with a list of hashes lie. */
  lemma PiecesOfList(f: Fields, props: Bytes, hashes: nat, bootstraps: nat, c: Checks)
    requires Acceptable(f, c) && |props| == 8 && 1 <= hashes && DOH <= f.protocol
    ensures var b := Encode(f, props, hashes, bootstraps);
      var host := 11 + hashes + |f.host|;
      var next := if f.protocol == DOH then host + 1 + |f.path| else host;
      && next <= |b| && b[0] == f.protocol && b[9..10] == Lp(f.address)
      && b[10..10 + hashes] == Empties(hashes) && b[10 + hashes..host] == Lp(f.host)
      && (f.protocol == DOH ==> b[host..next] == Lp(f.path))
      && b[next..] == Optional(bootstraps)
  {
    hide Empties, Optional, Lp;
    var b := Encode(f, props, hashes, bootstraps);
    LpSize(f.address); LpSize(f.host); LpSize(f.path);
    var head := [f.protocol] + props + Lp(f.address);
    var path := if f.protocol == DOH then Lp(f.path) else [];
    Pieces(head, Empties(hashes), Lp(f.host), path, Optional(bootstraps));
    assert b == head + Empties(hashes) + Lp(f.host) + path + Optional(bootstraps);
    assert b[..10] == head && b[9..10] == b[..10][9..];
  }

  ghost predicate WellFormed(b: Bytes, f: Fields, c: Checks) {
    && Acceptable(f, c)
    && exists props: Bytes, hashes: nat, bootstraps: nat ::
         |props| == 8 && 1 <= hashes && b == Encode(f, props, hashes, bootstraps)
  }

  lemma EndIsOptional(b: Bytes, pos: nat) returns (n: nat)
    requires pos <= |b| && EndsWithEmpties(b, pos)
    ensures b[pos..] == Optional(n)
  {
    if pos == |b| {
      n := 0;
    } else {
      SkippedIsEmpties(b, pos);
      n := |b| - pos;
      assert b[pos..|b|] == b[pos..];
    }
  }

  lemma ParsedKeyIsWellFormed(b: Bytes, c: Checks)
    requires Parse(b, c).Some? && b[0] <= DNSCRYPT
    ensures WellFormed(b, Parse(b, c).value, c)
  {
    hide SkipEmpties, EndsWithEmpties, Lp;
    var f := Parse(b, c).value;
    var props := b[1..9];
    var address := ReadField(b, 9).value;
    assert b[..9] == [f.protocol] + props;
    if f.protocol == UDP {
      assert b == b[..9] + b[9..address.next];
      assert b == Encode(f, props, 1, 0);
    } else {
      var key := ReadField(b, address.next).value;
      var provider := ReadField(b, key.next).value;
      assert b == b[..9] + b[9..address.next] + b[address.next..key.next] + b[key.next..provider.next];
      assert b == Encode(f, props, 1, 0);
    }
  }

  /** Where the fields of an accepted list stamp lie. */
  lemma HostFacts(b: Bytes, c: Checks) returns (after: nat, hostEnd: nat, next: nat)
    requires Parse(b, c).Some? && DOH <= b[0]
    ensures var f := Parse(b, c).value;
            && f.protocol == b[0] && Acceptable(f, c)
            && 10 < after <= hostEnd <= next <= |b|
            && b[9..10] == Lp(f.address)
            && SkipEmpties(b, 10) == Some(after)
            && b[after..hostEnd] == Lp(f.host)
            && b[hostEnd..next] == (if f.protocol == DOH then Lp(f.path) else [])
            && EndsWithEmpties(b, next)
  {
    hide EndsWithEmpties, Lp;
    SkippedIsEmpties(b, 10);
    hide SkipEmpties;
    after := SkipEmpties(b, 10).value;
    hostEnd := ReadField(b, after).value.next;
    next := hostEnd;
    if b[0] == DOH {
      next := ReadField(b, hostEnd).value.next;
    }
  }

  lemma ParsedHostIsWellFormed(b: Bytes, c: Checks)
    requires Parse(b, c).Some? && DOH <= b[0]
    ensures WellFormed(b, Parse(b, c).value, c)
  {
    hide *;
    var after, hostEnd, next := HostFacts(b, c);
    var f := Parse(b, c).value;
    SkippedIsEmpties(b, 10);
    var n := EndIsOptional(b, next);
    ListOfPieces(b, f, c, after, hostEnd, next, n);
    ItIsWellFormed(b, f, c, b[1..9], after - 10, n);
  }

  lemma ListOfPieces(b: Bytes, f: Fields, c: Checks, after: nat, hostEnd: nat, next: nat, n: nat)
    requires Acceptable(f, c) && DOH <= f.protocol && 10 < after <= hostEnd <= next <= |b| && b[0] == f.protocol
    requires b[9..10] == Lp(f.address) && b[10..after] == Empties(after - 10) && b[after..hostEnd] == Lp(f.host)
    requires b[hostEnd..next] == (if f.protocol == DOH then Lp(f.path) else []) && b[next..] == Optional(n)
    ensures b == Encode(f, b[1..9], after - 10, n)
  {
    hide Lp, Empties, Optional;
    var props := b[1..9];
    assert b[..9] == [f.protocol] + props;
    CutAt(b, 9, 10, after, hostEnd, next);
    if f.protocol != DOH {
      assert next == hostEnd by { assert |b[hostEnd..next]| == next - hostEnd; }
    }
  }

  lemma ItIsWellFormed(b: Bytes, f: Fields, c: Checks, props: Bytes, hashes: nat, bootstraps: nat)
    requires Acceptable(f, c) && |props| == 8 && 1 <= hashes && b == Encode(f, props, hashes, bootstraps)
    ensures WellFormed(b, f, c)
  {
  }

  lemma CutAt(b: Bytes, i: nat, j: nat, k: nat, l: nat, m: nat)
    requires i <= j <= k <= l <= m <= |b|
    ensures b == b[..i] + b[i..j] + b[j..k] + b[k..l] + b[l..m] + b[m..]
  {
  }

  /** The validator accepts exactly the well-formed stamps, and reports the fields they encode. */
  lemma AcceptedIffWellFormed(b: Bytes, c: Checks, f: Fields)
    ensures Parse(b, c) == Some(f) <==> WellFormed(b, f, c)
  {
    hide Parse, Encode;
    if WellFormed(b, f, c) {
      var props: Bytes, hashes: nat, bootstraps: nat :|
        |props| == 8 && 1 <= hashes && b == Encode(f, props, hashes, bootstraps);
      WellFormedIsAccepted(f, props, hashes, bootstraps, c);
    }
    if Parse(b, c) == Some(f) {
      ParsedIsWellFormed(b, c);
    }
  }

  lemma ParsedIsWellFormed(b: Bytes, c: Checks)
    requires Parse(b, c).Some?
    ensures WellFormed(b, Parse(b, c).value, c)
  {
    hide WellFormed, SkipEmpties, ReadField, EndsWithEmpties;
    if b[0] <= DNSCRYPT {
      ParsedKeyIsWellFormed(b, c);
    } else {
      ParsedHostIsWellFormed(b, c);
    }
  }

  // ----- The translator to a command-line address -----

  /** The address handed to the query tool; a stamp it understands itself is passed through. */
  datatype Command = Udp(address: Bytes) | Tls(host: Bytes) | Quic(host: Bytes) | Https(host: Bytes, path: Bytes) | Unchanged

  function CommandFor(f: Fields): Command {
    if f.protocol == UDP then Udp(f.address)
    else if f.protocol == DOH then Https(f.host, f.path)
    else if f.protocol == DOT then Tls(f.host)
    else if f.protocol == DOQ then Quic(f.host)
    else Unchanged
  }

  /** Reads the stamp again, on its own, and gives up on anything it does not expect. For a stamp the
      validator accepted it never gives up, and uses the very fields the validator saw. */
  method CommandAddress(b: Bytes, ghost c: Checks) returns (command: Command)
    ensures Parse(b, c).Some? ==> command == CommandFor(Parse(b, c).value)
  {
    hide EndsWithEmpties;
    if |b| < 10 {
      return Unchanged;
    }
    var p := b[0];
    if p != UDP && p != DOH && p != DOT && p != DOQ {
      return Unchanged;
    }
    var ok, address, pos := ReadLp(b, 9);
    if !ok {
      return Unchanged;
    }
    if p == UDP {
      return Udp(address);
    }
    ghost var start := pos;
    var more := true;
    while more
      invariant if more then SkipEmpties(b, start) == SkipEmpties(b, pos) else SkipEmpties(b, start) == Some(pos)
      invariant pos <= |b|
      decreases if more then |b| - pos + 1 else 0
    {
      if |b| <= pos || b[pos] as int % 128 != 0 {
        return Unchanged;
      }
      more := 128 <= b[pos] as int;
      pos := pos + 1;
    }
    hide SkipEmpties;
    var host, path: Bytes;
    ok, host, pos := ReadLp(b, pos);
    if !ok {
      return Unchanged;
    }
    if p == DOH {
      ok, path, pos := ReadLp(b, pos);
      if !ok {
        return Unchanged;
      }
      return Https(host, path);
    }
    return if p == DOQ then Quic(host) else Tls(host);
  }

  // ----- The canonicaliser -----

  /** Reads a field with no bounds check at all. */
  method ReadUnchecked(b: Bytes, pos: nat) returns (value: Bytes, next: nat)
    requires ReadField(b, pos).Some?
    ensures ReadField(b, pos) == Some(Field(value, next))
  {
    var n := b[pos] as int;
    return b[pos + 1..pos + 1 + n], pos + 1 + n;
  }

  /** The endpoint, key and provider of an accepted DNSCrypt stamp; no read leaves the buffer. */
  method DnscryptKey(b: Bytes, ghost c: Checks) returns (endpoint: Bytes, key: Bytes, provider: Bytes)
    requires Parse(b, c).Some? && b[0] == DNSCRYPT
    ensures var f := Parse(b, c).value; endpoint == f.address && key == f.key && provider == f.provider
  {
    var pos: nat;
    endpoint, pos := ReadUnchecked(b, 9);
    key, pos := ReadUnchecked(b, pos);
    provider, pos := ReadUnchecked(b, pos);
  }

  /** Any other accepted stamp has been translated before the canonicaliser looks at it. */
  lemma OnlyDnscryptReachesCanonicaliser(b: Bytes, c: Checks)
    requires Parse(b, c).Some?
    ensures CommandFor(Parse(b, c).value) == Unchanged <==> b[0] == DNSCRYPT
  {
    hide SkipEmpties, EndsWithEmpties, ReadField;
  }

  /** Which address an accepted stamp becomes, by its first byte. */
  lemma CommandMeaning(b: Bytes, c: Checks)
    requires Parse(b, c).Some?
    ensures b[0] as int <= 4
    ensures var f := Parse(b, c).value;
      CommandFor(f) == match b[0] as int
        case 0 => Udp(f.address)
        case 1 => Unchanged
        case 2 => Https(f.host, f.path)
        case 3 => Tls(f.host)
        case _ => Quic(f.host)
  {
    hide SkipEmpties, EndsWithEmpties, ReadField;
  }

  // ----- Where everything lies -----

  /** A length and as many bytes. */
  predicate IsField(b: Bytes, pos: nat, value: Bytes) {
    pos < |b| && b[pos] as int == |value| && pos + 1 + |value| <= |b| && b[pos + 1..pos + 1 + |value|] == value
  }

  /** Empty entries: 128 for each but the last, and 0. */
  predicate IsList(b: Bytes, from: nat, to: nat) {
    from < to <= |b| && b[to - 1] == 0 && forall i :: from <= i < to - 1 ==> b[i] == 128
  }

  lemma {:induction false} SkippedIsList(b: Bytes, pos: nat)
    ensures SkipEmpties(b, pos).Some? ==> IsList(b, pos, SkipEmpties(b, pos).value)
    decreases |b| - pos
  {
    if pos < |b| && b[pos] as int % 128 == 0 && 128 <= b[pos] as int {
      SkippedIsList(b, pos + 1);
    }
  }

  lemma ReadIsField(b: Bytes, pos: nat)
    requires ReadField(b, pos).Some?
    ensures IsField(b, pos, ReadField(b, pos).value.value) && ReadField(b, pos).value.next == pos + 1 + |ReadField(b, pos).value.value|
  {
  }

  /** Where the fields of a stamp that names a host lie. */
  ghost predicate LaysOutHost(b: Bytes, f: Fields, start: nat) {
    var end := start + 1 + |f.host|;
    && f.address == [] && IsList(b, 10, start) && IsField(b, start, f.host)
    && if f.protocol == 2 then
         && IsField(b, end, f.path) && f.path != [] && f.path[0] == 47
         && (|b| == end + 1 + |f.path| || IsList(b, end + 1 + |f.path|, |b|))
       else |b| == end || IsList(b, end, |b|)
  }

  /** Where the fields of an accepted stamp lie in it, byte by byte. */
  lemma LayoutMeaning(b: Bytes, c: Checks)
    requires Parse(b, c).Some?
    ensures var f := Parse(b, c).value;
      && 10 <= |b| && f.protocol == b[0] && b[0] <= 4 && IsField(b, 9, f.address)
      && (f.protocol == 0 ==> f.address != [] && |b| == 10 + |f.address|)
      && (f.protocol == 1 ==>
            && f.address != [] && |f.key| == 32 && f.provider != [] && |b| == 44 + |f.address| + |f.provider|
            && IsField(b, 10 + |f.address|, f.key) && IsField(b, 43 + |f.address|, f.provider))
      && (2 <= f.protocol ==> exists start :: LaysOutHost(b, f, start))
  {
    ReadIsField(b, 9);
    hide SkipEmpties, IsField, IsList;
    if b[0] == 0 {
      hide ReadField, EndsWithEmpties;
    } else if b[0] == 1 {
      var pos := ReadField(b, 9).value.next;
      ReadIsField(b, pos);
      ReadIsField(b, ReadField(b, pos).value.next);
      hide ReadField, EndsWithEmpties;
    } else {
      HostLayout(b, c);
    }
  }

  lemma HostLayout(b: Bytes, c: Checks)
    requires Parse(b, c).Some? && 2 <= b[0]
    ensures exists start :: LaysOutHost(b, Parse(b, c).value, start)
  {
    var pos := ReadField(b, 9).value.next;
    var after := SkipEmpties(b, pos).value;
    SkippedIsList(b, pos);
    ReadIsField(b, after);
    var end := ReadField(b, after).value.next;
    hide IsField, IsList, SkipEmpties;
    if b[0] == 2 {
      ReadIsField(b, end);
      SkippedIsList(b, ReadField(b, end).value.next);
    } else {
      SkippedIsList(b, end);
    }
    hide ReadField;
    assert LaysOutHost(b, Parse(b, c).value, after);
  }
}
