/** The probing session of js/main.js: the per-server connection
    configuration built in `gatherCandidates`, and the event handlers
    `gotDescription`, `iceCallback` and `gatheringStateChange` that buffer
    candidates and push one verdict line per server. */
module Session {
  import opened Wrappers
  import opened Classifier

  datatype Credentials = Credentials(username: string, password: string)

  /** One entry of `iceServers`. */
  datatype IceServer = IceServer(urls: seq<string>, username: string, credential: string)

  datatype IceTransportPolicy = All | RelayOnly

  /** The `RTCConfiguration` handed to `new RTCPeerConnection`. */
  datatype Configuration = Configuration(
    iceServers: seq<IceServer>,
    iceTransportPolicy: IceTransportPolicy,
    iceCandidatePoolSize: nat)

  const CandidatePoolSize: nat := 10

  /** `RTCIceGatheringState`. */
  datatype GatheringState = New | Gathering | Complete

  /** The candidates `iceCallback` keeps from a stream of candidate events:
      every one whose `candidate` text is non-empty, in arrival order. */
  function NonEmpty(events: seq<Candidate>): (kept: seq<Candidate>)
    ensures |kept| <= |events|
    ensures forall i :: 0 <= i < |kept| ==> kept[i].candidate != ""
  {
    if events == [] then []
    else
      var last := events[|events| - 1];
      NonEmpty(events[..|events| - 1]) + (if last.candidate == "" then [] else [last])
  }

  /** A candidate is kept exactly when it arrived with a non-empty
      `candidate` text. */
  lemma {:induction false} NonEmptyKeeps(events: seq<Candidate>, c: Candidate)
    ensures c in NonEmpty(events) <==> c in events && c.candidate != ""
    decreases |events|
  {
    if events != [] {
      var front, last := events[..|events| - 1], events[|events| - 1];
      NonEmptyKeeps(front, c);
      assert events == front + [last];
    }
  }

  /** Empty end-of-round markers never change the verdict line, wherever
      they fall in the stream. */
  lemma {:induction false} NonEmptyIgnoresMarkers(events: seq<Candidate>, k: nat, marker: Candidate)
    requires k <= |events| && marker.candidate == ""
    ensures NonEmpty(events[..k] + [marker] + events[k..]) == NonEmpty(events)
    decreases |events| - k
  {
    var with := events[..k] + [marker] + events[k..];
    if k == |events| {
      assert with[..|with| - 1] == events;
      assert events[..k] == events;
    } else {
      NonEmptyIgnoresMarkers(events[..|events| - 1], k, marker);
      assert with[..|with| - 1] == events[..|events| - 1][..k] + [marker] + events[..|events| - 1][k..];
      assert with[|with| - 1] == events[|events| - 1];
    }
  }

  /** The prober's state. The source keeps it in module-level slots (`pc`,
      `candidates`) and in a `result` list the callbacks cannot see; here it
      is one object whose fields the handlers update. */
  class Prober {
    /** The configuration of the open session's connection. */
    var config: Configuration
    /** The URI of the open session's only ICE server. */
    var server: string
    /** `pc !== null`: a session is open and has not been finalised. */
    var open: bool
    /** The per-session `candidates` buffer. */
    var candidates: seq<Candidate>
    /** The verdict lines pushed so far, one per finalised session. */
    var results: seq<string>
    /** Whether the browser fires `icegatheringstatechange`; without it a
        null candidate event finalises the session instead. */
    const hasGatheringStateEvent: bool
    /** The server of each finalised session, in order. */
    ghost var probed: seq<string>

    ghost predicate Valid()
      reads this
    {
      |results| == |probed| &&
      (forall i {:trigger IsVerdictLineFor(results[i], probed[i])} ::
         0 <= i < |results| ==> IsVerdictLineFor(results[i], probed[i]))
    }

    constructor (hasGatheringStateEvent: bool)
      ensures Valid() && this.hasGatheringStateEvent == hasGatheringStateEvent
      ensures !open && candidates == [] && results == [] && probed == []
    {
      this.hasGatheringStateEvent := hasGatheringStateEvent;
      config := Configuration([], All, 0);
      server := "";
      open := false;
      candidates := [];
      results := [];
      probed := [];
    }

    /** `pc = new RTCPeerConnection(config)`: a new session opens on the
        configuration's first ICE server. The buffer is only reset once the
        offer is ready (`GotDescription`). */
    method Open(config: Configuration)
      requires Valid() && HasServer(config)
      modifies this
      ensures Valid() && open && server == ServerUri(config) && this.config == config
      ensures candidates == old(candidates) && results == old(results) && probed == old(probed)
    {
      this.config := config;
      server := ServerUri(config);
      open := true;
    }

    /** `gotDescription`: the offer exists, so gathering is about to start;
        the buffer is cleared. (The source clears it before calling
        `pc.setLocalDescription`, so it is cleared even when that call
        fails.) */
    method GotDescription()
      requires Valid()
      modifies this
      ensures Valid() && candidates == []
      ensures config == old(config) && server == old(server) && open == old(open)
      ensures results == old(results) && probed == old(probed)
    {
      candidates := [];
    }

    /** The finalisation step shared by both handlers: push the verdict line
        for the buffered candidates and close the session. */
    method Finalise()
      requires Valid()
      modifies this
      ensures Valid() && !open
      ensures results == old(results) + [GetFinalResult(old(server), old(candidates))]
      ensures probed == old(probed) + [old(server)]
      ensures config == old(config) && server == old(server) && candidates == old(candidates)
    {
      results := results + [GetFinalResult(server, candidates)];
      probed := probed + [server];
      open := false;
    }

    /** `iceCallback`: `event` is `event.candidate`, `None` when it is null.
        A candidate with non-empty text is buffered; the empty end-of-round
        marker is ignored; a null candidate finalises the session only on a
        browser without the gathering-state event. */
    method IceCallback(event: Option<Candidate>)
      requires Valid()
      modifies this
      ensures Valid() && config == old(config) && server == old(server)
      ensures event.Some? && event.value.candidate != "" ==>
                candidates == old(candidates) + [event.value] && open == old(open) &&
                results == old(results) && probed == old(probed)
      ensures event.Some? && event.value.candidate == "" ==>
                candidates == old(candidates) && open == old(open) &&
                results == old(results) && probed == old(probed)
      ensures event.None? && hasGatheringStateEvent ==>
                candidates == old(candidates) && open == old(open) &&
                results == old(results) && probed == old(probed)
      ensures event.None? && !hasGatheringStateEvent ==>
                candidates == old(candidates) && !open &&
                results == old(results) + [GetFinalResult(server, candidates)] &&
                probed == old(probed) + [server]
    {
      match event
      case Some(c) =>
        if c.candidate == "" {
          return;
        }
        candidates := candidates + [c];
      case None =>
        if !hasGatheringStateEvent {
          Finalise();
        }
    }

    /** `gatheringStateChange`, called with the connection's gathering
        state. Only "complete" on an open session does anything: it pushes
        exactly one verdict line and closes the session. On a closed session
        the source fails reading the state of a null `pc` before it changes
        anything. */
    method GatheringStateChange(state: GatheringState)
      requires Valid()
      modifies this
      ensures Valid() && config == old(config) && server == old(server) && candidates == old(candidates)
      ensures old(open) && state == Complete ==>
                !open &&
                results == old(results) + [GetFinalResult(server, candidates)] &&
                probed == old(probed) + [server]
      ensures !(old(open) && state == Complete) ==>
                open == old(open) && results == old(results) && probed == old(probed)
    {
      if !open || state != Complete {
        return;
      }
      Finalise();
    }
  }

  /** One session as the browser drives it: the connection is opened for
      `uri`, the offer arrives, gathering starts, each candidate event in
      `events` is delivered, and gathering ends (with "complete", or with a
      null candidate on a browser without the gathering-state event). */
  method DriveSession(p: Prober, config: Configuration, events: seq<Candidate>)
    requires p.Valid() && HasServer(config)
    modifies p
    ensures p.Valid() && !p.open && p.config == config
    ensures p.results == old(p.results) + [GetFinalResult(ServerUri(config), NonEmpty(events))]
    ensures p.probed == old(p.probed) + [ServerUri(config)]
  {
    var uri := ServerUri(config);
    p.Open(config);
    p.GotDescription();
    p.GatheringStateChange(Gathering);
    var i := 0;
    while i < |events|
      invariant 0 <= i <= |events|
      invariant p.Valid() && p.open && p.server == uri && p.config == config
      invariant p.results == old(p.results) && p.probed == old(p.probed)
      invariant p.candidates == NonEmpty(events[..i])
    {
      assert events[..i + 1][..i] == events[..i];
      p.IceCallback(Some(events[i]));
      i := i + 1;
    }
    assert events[..i] == events;
    if p.hasGatheringStateEvent {
      p.GatheringStateChange(Complete);
    } else {
      p.IceCallback(None);
    }
  }

  /** The configuration names at least one ICE server with at least one
      URI. */
  predicate HasServer(config: Configuration)
  {
    |config.iceServers| > 0 && |config.iceServers[0].urls| > 0
  }

  /** The URI the prober reports for a session: the first URI of the first
      ICE server. */
  function ServerUri(config: Configuration): string
    requires HasServer(config)
  {
    config.iceServers[0].urls[0]
  }

  /** The configuration `gatherCandidates` builds for one server. */
  function ConfigFor(server: string, creds: Credentials): (config: Configuration)
    ensures |config.iceServers| == 1 && config.iceServers[0].urls == [server]
    ensures config.iceServers[0].username == creds.username
    ensures config.iceServers[0].credential == creds.password
    ensures config.iceTransportPolicy == All && config.iceCandidatePoolSize == CandidatePoolSize
    ensures HasServer(config) && ServerUri(config) == server
  {
    Configuration([IceServer([server], creds.username, creds.password)], All, CandidatePoolSize)
  }

  /** The lines a run reports when the browser reports `gathered[i]` for
      `servers[i]`: one per server, in input order. */
  function RunLines(servers: seq<string>, gathered: seq<seq<Candidate>>): (lines: seq<string>)
    requires |gathered| == |servers|
    ensures |lines| == |servers|
  {
    if servers == [] then []
    else
      var n := |servers| - 1;
      RunLines(servers[..n], gathered[..n]) + [GetFinalResult(servers[n], NonEmpty(gathered[n]))]
  }

  lemma RunLinesSnoc(servers: seq<string>, gathered: seq<seq<Candidate>>, i: nat)
    requires |gathered| == |servers| && i < |servers|
    ensures RunLines(servers[..i + 1], gathered[..i + 1])
            == RunLines(servers[..i], gathered[..i]) + [GetFinalResult(servers[i], NonEmpty(gathered[i]))]
  {
    assert servers[..i + 1][..i] == servers[..i] && servers[..i + 1][i] == servers[i];
    assert gathered[..i + 1][..i] == gathered[..i] && gathered[..i + 1][i] == gathered[i];
  }

  /** `f` applied to the pairs of `xs` and `ys`, in order. */
  function ZipMap<A, B, C>(f: (A, B) -> C, xs: seq<A>, ys: seq<B>): (zs: seq<C>)
    requires |xs| == |ys|
    ensures |zs| == |xs|
  {
    if xs == [] then [] else var n := |xs| - 1; ZipMap(f, xs[..n], ys[..n]) + [f(xs[n], ys[n])]
  }

  lemma {:induction false} ZipMapAt<A, B, C>(f: (A, B) -> C, xs: seq<A>, ys: seq<B>, i: nat)
    requires |xs| == |ys| && i < |xs|
    ensures ZipMap(f, xs, ys)[i] == f(xs[i], ys[i])
    decreases |xs|
  {
    var n := |xs| - 1;
    if i < n {
      ZipMapAt(f, xs[..n], ys[..n], i);
    }
  }

  function Report(server: string, events: seq<Candidate>): string
  {
    GetFinalResult(server, NonEmpty(events))
  }

  lemma {:induction false} RunLinesIsZipMap(servers: seq<string>, gathered: seq<seq<Candidate>>)
    requires |gathered| == |servers|
    ensures RunLines(servers, gathered) == ZipMap(Report, servers, gathered)
    decreases |servers|
  {
    if servers != [] {
      var n := |servers| - 1;
      RunLinesIsZipMap(servers[..n], gathered[..n]);
    }
  }

  lemma RunLinesAt(servers: seq<string>, gathered: seq<seq<Candidate>>, i: nat)
    requires |gathered| == |servers| && i < |servers|
    ensures RunLines(servers, gathered)[i] == GetFinalResult(servers[i], NonEmpty(gathered[i]))
    ensures IsVerdictLineFor(RunLines(servers, gathered)[i], servers[i])
  {
    RunLinesIsZipMap(servers, gathered);
    ZipMapAt(Report, servers, gathered, i);
  }

  /** `gatherCandidates`: one configuration and one verdict line per
      server, in input order. `gathered[i]` is what the browser reports for
      `servers[i]`. */
  method GatherCandidates(servers: seq<string>, creds: Credentials, gathered: seq<seq<Candidate>>,
                          hasGatheringStateEvent: bool)
    returns (results: seq<string>)
    requires |gathered| == |servers|
    ensures results == RunLines(servers, gathered)
    ensures forall i :: 0 <= i < |servers| ==>
              results[i] == GetFinalResult(servers[i], NonEmpty(gathered[i])) &&
              IsVerdictLineFor(results[i], servers[i])
  {
    var p := new Prober(hasGatheringStateEvent);
    var i := 0;
    while i < |servers|
      invariant 0 <= i <= |servers|
      invariant p.Valid() && p.results == RunLines(servers[..i], gathered[..i])
    {
      RunLinesSnoc(servers, gathered, i);
      DriveSession(p, ConfigFor(servers[i], creds), gathered[i]);
      i := i + 1;
    }
    assert servers[..i] == servers && gathered[..i] == gathered;
    results := p.results;
    forall i | 0 <= i < |servers|
      ensures results[i] == GetFinalResult(servers[i], NonEmpty(gathered[i])) &&
              IsVerdictLineFor(results[i], servers[i])
    {
      RunLinesAt(servers, gathered, i);
    }
  }
}
