/** The heuristic that turns the ICE candidates gathered against one server
    into a verdict line (`getFinalResult` in js/main.js). */
module Classifier {
  import opened JsStrings
  import opened Wrappers

  /** The candidate types of section 5.1.1 of RFC 8445. */
  datatype CandidateType = Host | Srflx | Prflx | Relay

  /** An `RTCIceCandidate` as the prober sees it: the SDP `candidate`
      attribute text and the candidate's type. */
  datatype Candidate = Candidate(candidate: string, kind: CandidateType)

  datatype Verdict = ConnectionComplete | AuthenticationFailed | NotReachable

  function VerdictText(v: Verdict): string
  {
    match v
    case ConnectionComplete => "Connection Complete"
    case AuthenticationFailed => "Authentication failed?"
    case NotReachable => "Not reachable?"
  }

  const Separator: string := ": "

  /** The only URIs the heuristic can judge: TURN over UDP. A TURN/TCP server
      yields no srflx candidates, so every other URI falls through. */
  ghost predicate IsTurnUdp(uri: string)
  {
    StartsWith(uri, "turn:") && !Contains(uri, "?transport=tcp")
  }

  /** Some gathered candidate has type `t`. */
  ghost predicate Gathered(cands: seq<Candidate>, t: CandidateType)
  {
    exists i :: 0 <= i < |cands| && cands[i].kind == t
  }

  /** The URI test, written with the two `indexOf` calls of the source. */
  function TurnUdpTest(uri: string): (b: bool)
    ensures b <==> IsTurnUdp(uri)
  {
    IndexOfZeroIsPrefix(uri, "turn:");
    IndexOf(uri, "turn:") == 0 && IndexOf(uri, "?transport=tcp") == -1
  }

  /** `candidates.map(cand => cand.type)`. */
  function Types(cands: seq<Candidate>): (types: seq<CandidateType>)
    ensures |types| == |cands|
  {
    if cands == [] then [] else [cands[0].kind] + Types(cands[1..])
  }

  /** The i-th entry of the type list is the i-th candidate's type. */
  lemma {:induction false} TypesKinds(cands: seq<Candidate>)
    ensures forall i :: 0 <= i < |cands| ==> Types(cands)[i] == cands[i].kind
  {
    if cands != [] {
      TypesKinds(cands[1..]);
      forall i | 1 <= i < |cands| ensures Types(cands)[i] == cands[i].kind {
        assert Types(cands)[i] == Types(cands[1..])[i - 1];
      }
    }
  }

  /** The verdict, computed along the branches of the source. It is
      "Connection Complete" exactly when the URI is not TURN/UDP or a relay
      candidate was gathered; "Authentication failed?" exactly when it is
      TURN/UDP, without relay, with srflx; "Not reachable?" exactly when it is
      TURN/UDP with neither. */
  function Classify(uri: string, cands: seq<Candidate>): (v: Verdict)
    ensures v == ConnectionComplete <==> !IsTurnUdp(uri) || Gathered(cands, Relay)
    ensures v == AuthenticationFailed <==>
              IsTurnUdp(uri) && !Gathered(cands, Relay) && Gathered(cands, Srflx)
    ensures v == NotReachable <==>
              IsTurnUdp(uri) && !Gathered(cands, Relay) && !Gathered(cands, Srflx)
  {
    var types := Types(cands);
    TypesHas(cands, Relay);
    TypesHas(cands, Srflx);
    if TurnUdpTest(uri) && IndexOfElement(types, Relay) == -1 then
      if IndexOfElement(types, Srflx) > -1 then AuthenticationFailed else NotReachable
    else
      ConnectionComplete
  }

  /** A type occurs in the `map`ped type list exactly when some candidate
      has it. */
  lemma TypesHas(cands: seq<Candidate>, t: CandidateType)
    ensures t in Types(cands) <==> Gathered(cands, t)
  {
    TypesKinds(cands);
    var types := Types(cands);
    if t in types {
      var i :| 0 <= i < |types| && types[i] == t;
    }
  }

  /** `getFinalResult`: the server URI, ": ", the verdict text. The line
      carries the whole verdict: reading it back for the URI yields the
      classification. */
  function GetFinalResult(uri: string, cands: seq<Candidate>): (line: string)
    ensures ParseVerdictLine(uri, line) == Some(Classify(uri, cands))
  {
    var line := uri + Separator + VerdictText(Classify(uri, cands));
    assert line[..|uri| + |Separator|] == uri + Separator;
    assert line[|uri| + |Separator|..] == VerdictText(Classify(uri, cands));
    line
  }

  /** Reads the verdict back out of a line reported for `uri`. */
  function ParseVerdictLine(uri: string, line: string): (v: Option<Verdict>)
    ensures v.Some? ==> line == uri + Separator + VerdictText(v.value)
  {
    if |line| < |uri| + |Separator| || line[..|uri| + |Separator|] != uri + Separator then None
    else
      var rest := line[|uri| + |Separator|..];
      assert line == line[..|uri| + |Separator|] + rest;
      if rest == VerdictText(ConnectionComplete) then Some(ConnectionComplete)
      else if rest == VerdictText(AuthenticationFailed) then Some(AuthenticationFailed)
      else if rest == VerdictText(NotReachable) then Some(NotReachable)
      else None
  }

  /** `line` is a verdict line for `uri`: the URI, ": ", then one of the
      three verdict texts. */
  predicate IsVerdictLineFor(line: string, uri: string)
  {
    ParseVerdictLine(uri, line).Some?
  }

  /** A verdict line starts with its URI and ": ". */
  lemma VerdictLineNamesServer(line: string, uri: string)
    requires IsVerdictLineFor(line, uri)
    ensures |uri| + 2 <= |line| && line[..|uri| + 2] == uri + ": "
  {
    var v := ParseVerdictLine(uri, line).value;
    assert line == (uri + ": ") + VerdictText(v);
  }

  /** The line depends only on whether a relay and whether a srflx candidate
      were gathered: order, repetitions and host/prflx candidates never
      change it. */
  lemma FinalResultDependsOnlyOnRelayAndSrflx(uri: string, c1: seq<Candidate>, c2: seq<Candidate>)
    requires Gathered(c1, Relay) <==> Gathered(c2, Relay)
    requires Gathered(c1, Srflx) <==> Gathered(c2, Srflx)
    ensures GetFinalResult(uri, c1) == GetFinalResult(uri, c2)
  {
  }

  /** Reordering the gathered candidates never changes the line. */
  lemma FinalResultIgnoresOrder(uri: string, c1: seq<Candidate>, c2: seq<Candidate>)
    requires multiset(c1) == multiset(c2)
    ensures GetFinalResult(uri, c1) == GetFinalResult(uri, c2)
  {
    forall t | Gathered(c1, t) ensures Gathered(c2, t) {
      var i :| 0 <= i < |c1| && c1[i].kind == t;
      assert c1[i] in multiset(c2);
    }
    forall t | Gathered(c2, t) ensures Gathered(c1, t) {
      var i :| 0 <= i < |c2| && c2[i].kind == t;
      assert c2[i] in multiset(c1);
    }
    FinalResultDependsOnlyOnRelayAndSrflx(uri, c1, c2);
  }

  /** The candidates of type relay or srflx, in order. */
  function RelayAndSrflx(cands: seq<Candidate>): (r: seq<Candidate>)
    ensures forall i :: 0 <= i < |r| ==> r[i].kind in {Relay, Srflx}
  {
    if cands == [] then []
    else if cands[0].kind in {Relay, Srflx} then [cands[0]] + RelayAndSrflx(cands[1..])
    else RelayAndSrflx(cands[1..])
  }

  lemma {:induction false} RelayAndSrflxKeeps(cands: seq<Candidate>, t: CandidateType)
    requires t in {Relay, Srflx}
    ensures Gathered(RelayAndSrflx(cands), t) <==> Gathered(cands, t)
    decreases |cands|
  {
    if cands != [] {
      var rest := RelayAndSrflx(cands[1..]);
      RelayAndSrflxKeeps(cands[1..], t);
      GatheredCons(cands[0], cands[1..], t);
      assert [cands[0]] + cands[1..] == cands;
      if cands[0].kind in {Relay, Srflx} {
        GatheredCons(cands[0], rest, t);
      }
    }
  }

  /** A type is gathered from a list with a first element exactly when the
      first element or the rest has it. */
  lemma GatheredCons(c: Candidate, cands: seq<Candidate>, t: CandidateType)
    ensures Gathered([c] + cands, t) <==> c.kind == t || Gathered(cands, t)
  {
    var all := [c] + cands;
    if Gathered(cands, t) {
      var i :| 0 <= i < |cands| && cands[i].kind == t;
      assert all[i + 1].kind == t;
    }
    if Gathered(all, t) && c.kind != t {
      var i :| 0 <= i < |all| && all[i].kind == t;
      assert cands[i - 1].kind == t;
    }
    if c.kind == t {
      assert all[0].kind == t;
    }
  }

  /** Host and peer-reflexive candidates never influence the line. */
  lemma FinalResultIgnoresHostAndPrflx(uri: string, cands: seq<Candidate>)
    ensures GetFinalResult(uri, RelayAndSrflx(cands)) == GetFinalResult(uri, cands)
  {
    RelayAndSrflxKeeps(cands, Relay);
    RelayAndSrflxKeeps(cands, Srflx);
    FinalResultDependsOnlyOnRelayAndSrflx(uri, RelayAndSrflx(cands), cands);
  }

  /** Every URI other than TURN over UDP gets "Connection Complete",
      whatever was gathered. */
  lemma NonTurnUdpAlwaysComplete(uri: string, cands: seq<Candidate>)
    requires !IsTurnUdp(uri)
    ensures GetFinalResult(uri, cands) == uri + ": Connection Complete"
  {
    assert Classify(uri, cands) == ConnectionComplete;
    CompleteLine(uri);
  }

  /** The "Connection Complete" line, spelled out. */
  lemma CompleteLine(uri: string)
    ensures uri + Separator + VerdictText(ConnectionComplete) == uri + ": Connection Complete"
  {
  }

  /** The scheme test on a literal TURN/UDP server URI. */
  lemma TurnUdpExample()
    ensures IsTurnUdp("turn:1.2.3.4:443")
  {
    var uri := "turn:1.2.3.4:443";
    forall k | 0 <= k <= 2 ensures !OccursAt(uri, "?transport=tcp", k) {
      assert uri[k..k + 14][0] == uri[k] != '?';
    }
    assert StartsWith(uri, "turn:");
  }

  /** The scheme test on literal TURN/TCP, STUN and TURNS server URIs. */
  lemma NotTurnUdpExamples()
    ensures !IsTurnUdp("turn:1.2.3.4:443?transport=tcp")
    ensures !IsTurnUdp("stun:1.2.3.4:443")
    ensures !IsTurnUdp("turns:1.2.3.4:443")
  {
    assert OccursAt("turn:1.2.3.4:443?transport=tcp", "?transport=tcp", 16);
    assert "stun:1.2.3.4:443"[..5][0] != "turn:"[0];
    assert "turns:1.2.3.4:443"[..5][4] != "turn:"[4];
  }

  /** Literal case: TURN/UDP, a relay candidate among others. */
  lemma TableTurnUdpRelay()
    ensures Classify("turn:1.2.3.4:443", [Candidate("c1", Host), Candidate("c2", Relay)])
            == ConnectionComplete
  {
    TurnUdpExample();
    assert [Candidate("c1", Host), Candidate("c2", Relay)][1].kind == Relay;
  }

  /** Literal case: TURN/UDP, only a srflx candidate. */
  lemma TableTurnUdpSrflx()
    ensures Classify("turn:1.2.3.4:443", [Candidate("c1", Srflx)]) == AuthenticationFailed
  {
    TurnUdpExample();
    assert [Candidate("c1", Srflx)][0].kind == Srflx;
  }

  /** Literal case: TURN/UDP, nothing gathered. */
  lemma TableTurnUdpNothing()
    ensures Classify("turn:1.2.3.4:443", []) == NotReachable
  {
    TurnUdpExample();
  }

  /** Literal case: TURN/TCP, nothing gathered, still "Connection Complete". */
  lemma TableTurnTcpNothing()
    ensures Classify("turn:1.2.3.4:443?transport=tcp", []) == ConnectionComplete
  {
    NotTurnUdpExamples();
  }

  /** Literal case: STUN, nothing gathered, still "Connection Complete". */
  lemma TableStunNothing()
    ensures Classify("stun:1.2.3.4:443", []) == ConnectionComplete
  {
    NotTurnUdpExamples();
  }
}
