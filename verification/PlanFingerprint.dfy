/**
The execution plan of an action program and the preimage of its fingerprint: every
content field as a length-prefixed block. Texts stand for their UTF-8 bytes (one
character per byte), angles and speeds for their round-trip decimal texts, and the hash
is a parameter assumed to have no collisions.
*/
module PlanFingerprint {
  import opened DecimalText

  datatype Waypoint = Waypoint(
    id: string, name: string, mode: int, waitMs: int, source: string, positions: seq<string>)

  datatype Plan = Plan(
    runId: string, programId: string, revision: int, sessionId: string, profileId: string,
    source: string, speed: string, waypoints: seq<Waypoint>)

  type Hash = seq<nat> -> string

  ghost predicate NoCollisions(sha: Hash) {
    forall a, b :: sha(a) == sha(b) ==> a == b
  }

  // ---------------------------------------------------------------- the preimage

  // A 32-bit length, least significant byte first.
  function LittleEndian(n: nat): seq<nat> {
    [n % 0x100, n / 0x100 % 0x100, n / 0x1_0000 % 0x100, n / 0x100_0000 % 0x100]
  }

  function Codes(s: string): seq<nat> {
    seq(|s|, i requires 0 <= i < |s| => s[i] as int)
  }

  function Block(s: string): seq<nat> {
    LittleEndian(|s|) + Codes(s)
  }

  function Blocks(texts: seq<string>): seq<nat> {
    if texts == [] then [] else Block(texts[0]) + Blocks(texts[1..])
  }

  function WaypointTexts(w: Waypoint): seq<string> {
    [w.id, w.name, OfInt(w.mode), OfInt(w.waitMs), w.source, OfNat(|w.positions|)] + w.positions
  }

  function AllWaypointTexts(ws: seq<Waypoint>): seq<string> {
    if ws == [] then [] else WaypointTexts(ws[0]) + AllWaypointTexts(ws[1..])
  }

  function HeaderTexts(p: Plan): seq<string> {
    [p.programId, OfInt(p.revision), p.profileId, p.source, p.speed, OfNat(|p.waypoints|)]
  }

  function PlanTexts(p: Plan): seq<string> {
    HeaderTexts(p) + AllWaypointTexts(p.waypoints)
  }

  function Fingerprint(sha: Hash, p: Plan): string {
    sha(Blocks(PlanTexts(p)))
  }

  // Feeds texts to the hash input one block at a time.
  method AppendHashValues(input: seq<nat>, texts: seq<string>) returns (output: seq<nat>)
    ensures output == input + Blocks(texts)
  {
    output := input;
    for i := 0 to |texts|
      invariant output + Blocks(texts[i..]) == input + Blocks(texts)
    {
      assert texts[i..][1..] == texts[i + 1..];
      output := output + Block(texts[i]);
    }
  }

  lemma NextWaypoint(ws: seq<Waypoint>, i: nat)
    requires i < |ws|
    ensures Blocks(AllWaypointTexts(ws[i..]))
         == Blocks(WaypointTexts(ws[i])) + Blocks(AllWaypointTexts(ws[i + 1..]))
  {
    assert ws[i..][1..] == ws[i + 1..];
    BlocksConcat(WaypointTexts(ws[i]), AllWaypointTexts(ws[i + 1..]));
  }

  method AppendWaypoints(input: seq<nat>, ws: seq<Waypoint>) returns (output: seq<nat>)
    ensures output == input + Blocks(AllWaypointTexts(ws))
  {
    output := input;
    assert ws[0..] == ws;
    for i := 0 to |ws|
      invariant output + Blocks(AllWaypointTexts(ws[i..])) == input + Blocks(AllWaypointTexts(ws))
    {
      NextWaypoint(ws, i);
      output := AppendHashValues(output, WaypointTexts(ws[i]));
    }
  }

  // The fingerprint as the runner computes it, field by field into the hash input.
  method ComputeFingerprint(sha: Hash, p: Plan) returns (fingerprint: string)
    ensures fingerprint == Fingerprint(sha, p)
  {
    BlocksConcat(HeaderTexts(p), AllWaypointTexts(p.waypoints));
    var input := AppendHashValues([], HeaderTexts(p));
    input := AppendWaypoints(input, p.waypoints);
    assert [] + Blocks(HeaderTexts(p)) + Blocks(AllWaypointTexts(p.waypoints)) == Blocks(PlanTexts(p));
    assert input == Blocks(PlanTexts(p));
    fingerprint := sha(input);
  }

  lemma {:induction false} BlocksConcat(a: seq<string>, b: seq<string>)
    ensures Blocks(a + b) == Blocks(a) + Blocks(b)
    decreases |a|
  {
    if a == [] {
      assert a + b == b;
    } else {
      assert (a + b)[1..] == a[1..] + b;
      BlocksConcat(a[1..], b);
    }
  }

  // ---------------------------------------------------------------- it determines the content

  ghost predicate Addressable(texts: seq<string>) {
    forall i :: 0 <= i < |texts| ==> |texts[i]| < 0x8000_0000
  }

  lemma LengthIsReadable(m: nat, n: nat)
    requires m < 0x8000_0000 && n < 0x8000_0000 && LittleEndian(m) == LittleEndian(n)
    ensures m == n
  {
    var a, b := LittleEndian(m), LittleEndian(n);
    assert a[0] == b[0] && a[1] == b[1] && a[2] == b[2] && a[3] == b[3];
    FromLittleEndian(m);
    FromLittleEndian(n);
  }

  lemma FromLittleEndian(n: nat)
    requires n < 0x8000_0000
    ensures n == LittleEndian(n)[0] + 0x100 * (LittleEndian(n)[1] + 0x100 * (LittleEndian(n)[2] + 0x100 * LittleEndian(n)[3]))
  {
    assert n / 0x1_0000 == n / 0x100 / 0x100 && n / 0x100_0000 == n / 0x100 / 0x100 / 0x100;
  }

  // A block starts with the length of its text in four bytes, least significant first.
  lemma BlockIsSpelled(s: string)
    requires |s| < 0x8000_0000
    ensures var b := Block(s);
      && |b| == 4 + |s| && b[0] < 256 && b[1] < 256 && b[2] < 256 && b[3] < 256
      && b[0] + 256 * b[1] + 65536 * b[2] + 16777216 * b[3] == |s|
      && forall i :: 0 <= i < |s| ==> b[4 + i] == s[i] as int
  {
    FromLittleEndian(|s|);
  }

  // How many texts the first k waypoints have.
  function TextsBefore(ws: seq<Waypoint>, k: nat): nat
    requires k <= |ws|
  {
    if k == 0 then 0 else TextsBefore(ws, k - 1) + 6 + |ws[k - 1].positions|
  }

  ghost predicate StandsAt(texts: seq<string>, i: nat, w: Waypoint) {
    && i + 6 + |w.positions| <= |texts|
    && texts[i] == w.id && texts[i + 1] == w.name && texts[i + 2] == OfInt(w.mode) && texts[i + 3] == OfInt(w.waitMs)
    && texts[i + 4] == w.source && texts[i + 5] == OfNat(|w.positions|)
    && forall j :: 0 <= j < |w.positions| ==> texts[i + 6 + j] == w.positions[j]
  }

  lemma {:induction false} DroppingShifts(ws: seq<Waypoint>, k: nat)
    requires 0 < k <= |ws|
    ensures TextsBefore(ws, k) == 6 + |ws[0].positions| + TextsBefore(ws[1..], k - 1)
  {
    if k > 1 {
      DroppingShifts(ws, k - 1);
    }
  }

  lemma {:induction false} WaypointStands(ws: seq<Waypoint>, k: nat)
    requires k < |ws|
    ensures StandsAt(AllWaypointTexts(ws), TextsBefore(ws, k), ws[k])
    decreases k
  {
    var first, rest := WaypointTexts(ws[0]), AllWaypointTexts(ws[1..]);
    assert AllWaypointTexts(ws) == first + rest;
    if k > 0 {
      WaypointStands(ws[1..], k - 1);
      DroppingShifts(ws, k);
      Shifted(first, rest, TextsBefore(ws[1..], k - 1), ws[k]);
    }
  }

  lemma Shifted(front: seq<string>, texts: seq<string>, i: nat, w: Waypoint)
    requires StandsAt(texts, i, w)
    ensures StandsAt(front + texts, |front| + i, w)
  {
    forall j | 0 <= j < |w.positions| ensures (front + texts)[|front| + i + 6 + j] == w.positions[j] {
      assert texts[i + 6 + j] == w.positions[j];
    }
  }

  // What is hashed, block by block: six texts of the program, then those of each waypoint in order.
  lemma TextsArePlaced(p: Plan, k: nat)
    requires k < |p.waypoints|
    ensures var t := PlanTexts(p);
      && t[0] == p.programId && t[1] == OfInt(p.revision) && t[2] == p.profileId && t[3] == p.source
      && t[4] == p.speed && t[5] == OfNat(|p.waypoints|)
      && StandsAt(t, 6 + TextsBefore(p.waypoints, k), p.waypoints[k])
  {
    var header, rest := HeaderTexts(p), AllWaypointTexts(p.waypoints);
    WaypointStands(p.waypoints, k);
    Shifted(header, rest, TextsBefore(p.waypoints, k), p.waypoints[k]);
    assert forall i :: 0 <= i < 6 ==> (header + rest)[i] == header[i];
  }

  lemma CodesAreReadable(s: string, t: string)
    requires Codes(s) == Codes(t)
    ensures s == t
  {
    assert |s| == |Codes(s)| == |Codes(t)| == |t|;
    forall i | 0 <= i < |s| ensures s[i] == t[i] {
      assert Codes(s)[i] == Codes(t)[i];
    }
  }

  // A block is recognised at the head of any continuation.
  lemma HeadBlockIsReadable(s: string, t: string, x: seq<nat>, y: seq<nat>)
    requires |s| < 0x8000_0000 && |t| < 0x8000_0000
    requires Block(s) + x == Block(t) + y
    ensures s == t && x == y
  {
    var l, r := Block(s) + x, Block(t) + y;
    assert l[..4] == LittleEndian(|s|) && r[..4] == LittleEndian(|t|);
    LengthIsReadable(|s|, |t|);
    assert l[4..4 + |s|] == Codes(s) && r[4..4 + |t|] == Codes(t);
    CodesAreReadable(s, t);
    assert l[4 + |s|..] == x && r[4 + |t|..] == y;
  }

  lemma {:induction false} BlocksAreReadable(a: seq<string>, b: seq<string>)
    requires Addressable(a) && Addressable(b) && Blocks(a) == Blocks(b)
    ensures a == b
    decreases |a|
  {
    if a == [] {
      assert b != [] ==> |Blocks(b)| >= 4;
    } else {
      assert |Blocks(a)| >= 4;
      HeadBlockIsReadable(a[0], b[0], Blocks(a[1..]), Blocks(b[1..]));
      BlocksAreReadable(a[1..], b[1..]);
      assert a == [a[0]] + a[1..] && b == [b[0]] + b[1..];
    }
  }

  lemma WaypointIsReadable(v: Waypoint, w: Waypoint, x: seq<string>, y: seq<string>)
    requires WaypointTexts(v) + x == WaypointTexts(w) + y
    ensures v == w && x == y
  {
    var l, r := WaypointTexts(v) + x, WaypointTexts(w) + y;
    assert l[0] == v.id && l[1] == v.name && l[2] == OfInt(v.mode) && l[3] == OfInt(v.waitMs)
        && l[4] == v.source && l[5] == OfNat(|v.positions|);
    assert r[0] == w.id && r[1] == w.name && r[2] == OfInt(w.mode) && r[3] == OfInt(w.waitMs)
        && r[4] == w.source && r[5] == OfNat(|w.positions|);
    SameIntNumeralSameInt(v.mode, w.mode);
    SameIntNumeralSameInt(v.waitMs, w.waitMs);
    SameNumeralSameNumber(|v.positions|, |w.positions|);
    assert l[6..6 + |v.positions|] == v.positions && r[6..6 + |w.positions|] == w.positions;
    assert l[6 + |v.positions|..] == x && r[6 + |w.positions|..] == y;
  }

  lemma {:induction false} WaypointsAreReadable(vs: seq<Waypoint>, ws: seq<Waypoint>)
    requires |vs| == |ws| && AllWaypointTexts(vs) == AllWaypointTexts(ws)
    ensures vs == ws
    decreases |vs|
  {
    if vs != [] {
      WaypointIsReadable(vs[0], ws[0], AllWaypointTexts(vs[1..]), AllWaypointTexts(ws[1..]));
      WaypointsAreReadable(vs[1..], ws[1..]);
      assert vs == [vs[0]] + vs[1..] && ws == [ws[0]] + ws[1..];
    }
  }

  // The preimage is injective on what it covers: equal fingerprints mean equal plans up to the
  // run ID and the session ID, which it does not cover.
  lemma FingerprintDeterminesContent(sha: Hash, p: Plan, q: Plan)
    requires NoCollisions(sha) && Addressable(PlanTexts(p)) && Addressable(PlanTexts(q))
    ensures Fingerprint(sha, p) == Fingerprint(sha, q) <==> p == q.(runId := p.runId, sessionId := p.sessionId)
  {
    if Fingerprint(sha, p) == Fingerprint(sha, q) {
      BlocksAreReadable(PlanTexts(p), PlanTexts(q));
      var l, r := PlanTexts(p), PlanTexts(q);
      assert l[0] == p.programId && l[1] == OfInt(p.revision) && l[2] == p.profileId && l[3] == p.source
          && l[4] == p.speed && l[5] == OfNat(|p.waypoints|) && l[6..] == AllWaypointTexts(p.waypoints);
      assert r[0] == q.programId && r[1] == OfInt(q.revision) && r[2] == q.profileId && r[3] == q.source
          && r[4] == q.speed && r[5] == OfNat(|q.waypoints|) && r[6..] == AllWaypointTexts(q.waypoints);
      SameIntNumeralSameInt(p.revision, q.revision);
      SameNumeralSameNumber(|p.waypoints|, |q.waypoints|);
      WaypointsAreReadable(p.waypoints, q.waypoints);
    }
  }
}
