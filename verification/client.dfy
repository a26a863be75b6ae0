/** Playback framing and the mute/deafen save-restore of the Mumble client
    (mumble/client.go). Tickers, channels and locks are dropped: the outgoing
    audio channel is the sequence of frames pushed into it, an incoming
    sample channel is the finite sequence it delivers before it is closed,
    and a stop request from another goroutine is the index of the frame
    after which the player first sees it. */
module Client {
  import opened Samples
  import opened Seqs
  import opened Errors

  /** The self-mute and self-deafen flags the server keeps for this user.
      The setters' documentation fixes how they interact: unmuting also
      undeafens, and deafening also mutes. */
  datatype Server = Server(muted: bool, deafened: bool)

  /** `Self.SetSelfMuted(m)` on the server's copy. */
  function ServerMute(s: Server, m: bool): Server
  {
    if m then s.(muted := true) else Server(false, false)
  }

  /** `Self.SetSelfDeafened(d)` on the server's copy. */
  function ServerDeafen(s: Server, d: bool): Server
  {
    if d then Server(true, true) else s.(deafened := false)
  }

  /** The client: its local mirror of the flags (`selfMuted`,
      `selfDeafened`), the server's copy, the flags saved by `LockAudio`, and
      the stop request flag. */
  datatype Client = Client(
    selfMuted: bool,
    selfDeafened: bool,
    server: Server,
    audioMuted: bool,
    audioDeafened: bool,
    stopAudio: bool)

  /** The mirror describes the server: deafened agrees, and the server is
      muted exactly when the mirror says muted or deafened. */
  predicate InSync(c: Client)
  {
    c.server == Server(c.selfMuted || c.selfDeafened, c.selfDeafened)
  }

  /** `SetSelfMuted`: updates the mirror and the server together. */
  function SetSelfMuted(c: Client, m: bool): (r: Client)
    ensures r.selfMuted == m && r.selfDeafened == c.selfDeafened
    ensures !m ==> r.server == Server(false, false)
    ensures m ==> r.server.muted && r.server.deafened == c.server.deafened
    ensures r.stopAudio == c.stopAudio && r.audioMuted == c.audioMuted && r.audioDeafened == c.audioDeafened
  {
    c.(selfMuted := m, server := ServerMute(c.server, m))
  }

  /** `SetSelfDeafened`: updates the mirror and the server together. */
  function SetSelfDeafened(c: Client, d: bool): (r: Client)
    ensures r.selfDeafened == d && r.selfMuted == c.selfMuted
    ensures d ==> r.server == Server(true, true)
    ensures !d ==> !r.server.deafened && r.server.muted == c.server.muted
    ensures r.stopAudio == c.stopAudio && r.audioMuted == c.audioMuted && r.audioDeafened == c.audioDeafened
  {
    c.(selfDeafened := d, server := ServerDeafen(c.server, d))
  }

  /** `NewClient` after a successful dial: every flag starts false, whatever
      the server reported, and the client then deafens itself. */
  function NewClient(dialed: Server): (c: Client)
    ensures c.selfDeafened && !c.selfMuted && c.server == Server(true, true)
    ensures InSync(c) && !c.stopAudio
  {
    SetSelfDeafened(Client(false, false, dialed, false, false, false), true)
  }

  /** `LockAudio` (the mutex left out): saves the mirror's flags and unmutes,
      which on the server also undeafens. */
  function LockAudio(c: Client): (r: Client)
    ensures r.audioMuted == c.selfMuted && r.audioDeafened == c.selfDeafened
    ensures r.server == Server(false, false)
    ensures !r.selfMuted && r.selfDeafened == c.selfDeafened && r.stopAudio == c.stopAudio
  {
    var saved := c.(audioMuted := c.selfMuted, audioDeafened := c.selfDeafened);
    SetSelfMuted(saved, false)
  }

  /** `UnlockAudio`: a saved "deafened" is restored in preference to a saved
      "muted"; with neither saved nothing changes. */
  function UnlockAudio(c: Client): (r: Client)
    ensures c.audioDeafened ==> r.selfDeafened && r.server == Server(true, true)
    ensures !c.audioDeafened && c.audioMuted ==>
      r.selfMuted && r.server.muted && r.server.deafened == c.server.deafened
    ensures !c.audioDeafened && !c.audioMuted ==> r == c
    ensures r.stopAudio == c.stopAudio
  {
    if c.audioDeafened then SetSelfDeafened(c, c.audioDeafened)
    else if c.audioMuted then SetSelfMuted(c, c.audioMuted)
    else c
  }

  /** `StopAudio`. */
  function StopAudio(c: Client): (r: Client)
    ensures AudioStopped(r)
    ensures r.(stopAudio := c.stopAudio) == c
  {
    c.(stopAudio := true)
  }

  /** `AudioStopped`. */
  predicate AudioStopped(c: Client)
  {
    c.stopAudio
  }

  /** The state a playback call leaves behind: the stop request cleared and
      the saved flags put back by the deferred `UnlockAudio`. */
  function AfterPlayback(c: Client): Client
  {
    UnlockAudio(LockAudio(c).(stopAudio := false))
  }

  /** A playback call started from a state whose mirror describes the server
      gives the server back exactly its flags, keeps the mirror describing
      it, and clears the stop request. The mirror's own "muted" is not
      restored when the client was also deafened, because only "deafened"
      is set again. */
  lemma PlaybackRestores(c: Client)
    requires InSync(c)
    ensures AfterPlayback(c).server == c.server
    ensures InSync(AfterPlayback(c))
    ensures AfterPlayback(c).selfDeafened == c.selfDeafened
    ensures AfterPlayback(c).selfMuted == (c.selfMuted && !c.selfDeafened)
    ensures !AfterPlayback(c).stopAudio
  {
    var l := LockAudio(c).(stopAudio := false);
    assert l.audioDeafened == c.selfDeafened && l.audioMuted == c.selfMuted;
    if c.selfDeafened {
      assert AfterPlayback(c) == SetSelfDeafened(l, true);
    } else if c.selfMuted {
      assert AfterPlayback(c) == SetSelfMuted(l, true);
    } else {
      assert AfterPlayback(c) == l;
    }
  }

  /** The full frames of `s`, in order; fewer than `fs` trailing samples are
      not a frame. */
  function Chop(s: seq<int16>, fs: nat): (r: seq<seq<int16>>)
    requires fs >= 1
    ensures |r| == |s| / fs
    decreases |s|
  {
    if |s| < fs then
      DivUnique(|s|, fs, 0, |s|);
      []
    else
      DivStep(|s|, fs);
      [s[..fs]] + Chop(s[fs..], fs)
  }

  lemma DivStep(a: nat, b: nat)
    requires b >= 1 && a >= b
    ensures (a - b) / b == a / b - 1
    ensures (a - b) % b == a % b
  {
    DivUnique(a, b, (a - b) / b + 1, (a - b) % b);
  }

  /** Frame i is `s[i*fs : i*fs+fs]`. */
  lemma {:induction false} ChopAt(s: seq<int16>, fs: nat, i: nat)
    requires fs >= 1 && i < |Chop(s, fs)|
    ensures i * fs + fs <= |s|
    ensures Chop(s, fs)[i] == s[i * fs..i * fs + fs]
    decreases i
  {
    if i > 0 {
      var t := s[fs..];
      ChopAt(t, fs, i - 1);
      assert Chop(s, fs)[i] == Chop(t, fs)[i - 1];
      var a := (i - 1) * fs;
      assert i * fs == a + fs;
      assert t[a..a + fs] == s[a + fs..a + fs + fs];
    }
  }

  /** The first k frames, concatenated, are the first k*fs samples. */
  lemma {:induction false} FlattenChopTake(s: seq<int16>, fs: nat, k: nat)
    requires fs >= 1 && k <= |Chop(s, fs)|
    ensures k * fs <= |s|
    ensures Flatten(Chop(s, fs)[..k]) == s[..k * fs]
    decreases k
  {
    var c := Chop(s, fs);
    if k > 0 {
      FlattenChopTake(s[fs..], fs, k - 1);
      assert c[..k] == [s[..fs]] + Chop(s[fs..], fs)[..k - 1];
      assert c[..k][1..] == Chop(s[fs..], fs)[..k - 1];
      assert k * fs == fs + (k - 1) * fs;
      assert s[..k * fs] == s[..fs] + s[fs..][..(k - 1) * fs];
    }
  }

  /** All full frames together are the input without its last
      `|s| % fs` samples. */
  lemma ChopDropsRemainder(s: seq<int16>, fs: nat)
    requires fs >= 1
    ensures Flatten(Chop(s, fs)) == s[..|s| - |s| % fs]
  {
    var c := Chop(s, fs);
    FlattenChopTake(s, fs, |c|);
    assert c[..|c|] == c;
    assert |s| == (|s| / fs) * fs + |s| % fs;
  }

  /** The first frame index at which the player sees the stop flag set: the
      flag left over from before the call is seen after the first frame, a
      request arriving during frame k after frame k. */
  function StopIndex(stale: bool, raised: Option<nat>): Option<nat>
  {
    if stale then Some(0) else raised
  }

  /** What `AudioStopped()` returns after frame i has been pushed. */
  predicate Polled(stale: bool, raised: Option<nat>, i: nat)
  {
    stale || (raised.Some? && raised.value <= i)
  }

  /** The number of frames pushed when n full frames are available. */
  function FramesSent(n: nat, stop: Option<nat>): (k: nat)
    ensures k <= n
    ensures stop.Some? && stop.value < n ==> k == stop.value + 1
    ensures stop.None? ==> k == n
  {
    if stop.Some? && stop.value < n then stop.value + 1 else n
  }

  /** The frames `SendAudio` pushes: the full frames up to and including
      the one after which the stop flag is first seen. */
  function Sent(samples: seq<int16>, fs: nat, stop: Option<nat>): seq<seq<int16>>
    requires fs >= 1
  {
    Chop(samples, fs)[..FramesSent(|samples| / fs, stop)]
  }

  /** The frame loop of `SendAudio`: frame i is pushed before the stop flag
      is polled. */
  method PushFrames(samples: seq<int16>, fs: nat, stale: bool, raised: Option<nat>)
    returns (frames: seq<seq<int16>>)
    requires fs >= 1
    ensures frames == Sent(samples, fs, StopIndex(stale, raised))
  {
    var n := |samples| / fs;
    ghost var chop := Chop(samples, fs);
    frames := [];
    var i := 0;
    while i < n
      invariant 0 <= i <= n
      invariant frames == chop[..i]
      invariant StopIndex(stale, raised).None? || StopIndex(stale, raised).value >= i
    {
      ChopAt(samples, fs, i);
      frames := frames + [samples[i * fs..i * fs + fs]];
      assert chop[..i + 1] == chop[..i] + [chop[i]];
      if Polled(stale, raised, i) {
        i := i + 1;
        break;
      }
      i := i + 1;
    }
  }

  /** Sent frames are whole frames, at most ⌊|samples|/fs⌋ of them, and
      together they are a prefix of the samples. */
  lemma SentFrames(samples: seq<int16>, fs: nat, stop: Option<nat>)
    requires fs >= 1
    ensures |Sent(samples, fs, stop)| <= |samples| / fs
    ensures forall i :: 0 <= i < |Sent(samples, fs, stop)| ==> |Sent(samples, fs, stop)[i]| == fs
    ensures Flatten(Sent(samples, fs, stop)) == samples[..|Sent(samples, fs, stop)| * fs]
  {
    var frames := Sent(samples, fs, stop);
    FlattenChopTake(samples, fs, |frames|);
    forall j | 0 <= j < |frames|
      ensures |frames[j]| == fs
    {
      ChopAt(samples, fs, j);
    }
  }

  /** With no stop request every full frame is sent, and only the trailing
      `|samples| % fs` samples are held back. */
  lemma SentWithoutStop(samples: seq<int16>, fs: nat)
    requires fs >= 1
    ensures Sent(samples, fs, None) == Chop(samples, fs)
    ensures Flatten(Sent(samples, fs, None)) == samples[..|samples| - |samples| % fs]
  {
    var chop := Chop(samples, fs);
    assert chop[..|chop|] == chop;
    ChopDropsRemainder(samples, fs);
  }

  /** A request that arrives while frame k is in flight lets frame k finish
      and sends nothing after it. */
  lemma SentUntilStop(samples: seq<int16>, fs: nat, k: nat)
    requires fs >= 1 && k < |samples| / fs
    ensures |Sent(samples, fs, Some(k))| == k + 1 && k * fs + fs <= |samples| &&
      Sent(samples, fs, Some(k))[k] == samples[k * fs..k * fs + fs]
  {
    ChopAt(samples, fs, k);
  }

  /** `SendAudio(samples)` with frame size `fs`: the frames pushed, then the
      stop request cleared and the saved flags restored on exit. */
  method SendAudio(c: Client, samples: seq<int16>, fs: nat, raised: Option<nat>)
    returns (r: Client, frames: seq<seq<int16>>)
    requires fs >= 1
    ensures frames == Sent(samples, fs, StopIndex(c.stopAudio, raised))
    ensures r == AfterPlayback(c)
  {
    var locked := LockAudio(c);
    frames := PushFrames(samples, fs, locked.stopAudio, raised);
    r := AfterPlayback(c);
  }

  /** Every frame but the last holds exactly fs samples; the last is
      non-empty and holds at most fs. */
  ghost predicate Framed(xss: seq<seq<int16>>, fs: nat)
  {
    (forall j :: 0 <= j < |xss| - 1 ==> |xss[j]| == fs) &&
    (|xss| > 0 ==> 0 < |xss[|xss| - 1]| <= fs)
  }

  /** The frames `StreamAudio` produces from a closed input: full frames,
      then the non-empty remainder if there is one. */
  function Chunks(s: seq<int16>, fs: nat): seq<seq<int16>>
    requires fs >= 1
    decreases |s|
  {
    if |s| == 0 then []
    else if |s| <= fs then [s]
    else [s[..fs]] + Chunks(s[fs..], fs)
  }

  /** Chunks are framed and concatenate back to the input. */
  lemma {:induction false} ChunksSpec(s: seq<int16>, fs: nat)
    requires fs >= 1
    ensures Framed(Chunks(s, fs), fs)
    ensures Flatten(Chunks(s, fs)) == s
    decreases |s|
  {
    if |s| > fs {
      ChunksSpec(s[fs..], fs);
      var rest := Chunks(s[fs..], fs);
      assert Chunks(s, fs)[1..] == rest;
      assert s == s[..fs] + s[fs..];
    }
  }

  /** Framing determines the pieces: any framed cut of s is `Chunks(s, fs)`. */
  lemma {:induction false} FramedUnique(xss: seq<seq<int16>>, s: seq<int16>, fs: nat)
    requires fs >= 1 && Framed(xss, fs) && Flatten(xss) == s
    ensures xss == Chunks(s, fs)
    decreases |xss|
  {
    if |xss| == 1 {
      assert xss[1..] == [];
      assert Flatten(xss) == xss[0] + Flatten(xss[1..]);
      assert s == xss[0];
      assert 0 < |s| <= fs;
    } else if |xss| > 1 {
      var rest := xss[1..];
      assert Framed(rest, fs) by {
        forall j | 0 <= j < |rest| - 1
          ensures |rest[j]| == fs
        {
          assert rest[j] == xss[j + 1];
        }
      }
      FramedUnique(rest, s[fs..], fs) by {
        assert |xss[0]| == fs;
        assert s == xss[0] + Flatten(rest);
        assert s[fs..] == Flatten(rest);
      }
      assert |Flatten(rest)| > 0 by {
        FlattenLast(rest);
      }
    }
  }

  lemma FlattenLast(xss: seq<seq<int16>>)
    requires |xss| > 0
    ensures |Flatten(xss)| >= |xss[|xss| - 1]|
  {
    var init := xss[..|xss| - 1];
    assert xss == init + [xss[|xss| - 1]];
    FlattenSnoc(init, xss[|xss| - 1]);
  }

  /** `StreamAudio` emits the full frames `SendAudio` would send with no
      stop request, followed by the remainder when there is one. */
  lemma {:induction false} ChunksAreChopPlusRest(s: seq<int16>, fs: nat)
    requires fs >= 1
    ensures Chunks(s, fs) == Chop(s, fs) + Rest(s, fs)
    decreases |s|
  {
    if |s| == 0 {
    } else if |s| < fs {
      ShortChunks(s, fs);
    } else if |s| == fs {
      OneFrameChunks(s, fs);
    } else {
      ChunksAreChopPlusRest(s[fs..], fs);
      RestTail(s, fs);
    }
  }

  /** The samples left after the full frames, as a frame of their own when
      there are any. */
  function Rest(s: seq<int16>, fs: nat): seq<seq<int16>>
    requires fs >= 1
  {
    if |s| % fs == 0 then [] else [s[|s| - |s| % fs..]]
  }

  lemma ShortChunks(s: seq<int16>, fs: nat)
    requires fs >= 1 && 0 < |s| < fs
    ensures Chunks(s, fs) == Chop(s, fs) + Rest(s, fs)
  {
    DivUnique(|s|, fs, 0, |s|);
    assert |s| % fs == |s|;
  }

  lemma OneFrameChunks(s: seq<int16>, fs: nat)
    requires fs >= 1 && |s| == fs
    ensures Chunks(s, fs) == Chop(s, fs) + Rest(s, fs)
  {
    DivUnique(|s|, fs, 1, 0);
    assert s[fs..] == [];
    assert Chop(s, fs) == [s[..fs]] + Chop(s[fs..], fs);
    assert s[..fs] == s;
  }

  lemma RestTail(s: seq<int16>, fs: nat)
    requires fs >= 1 && |s| > fs
    ensures Rest(s, fs) == Rest(s[fs..], fs)
  {
    DivStep(|s|, fs);
    var m := |s| % fs;
    if m != 0 {
      assert s[fs..][|s[fs..]| - m..] == s[|s| - m..];
    }
  }

  /** `StreamAudio(ch)` with frame size `fs`: samples are appended to a
      buffer that is pushed whenever it reaches fs samples, and a non-empty
      remainder is pushed when the input closes. The stop flag is never
      consulted, so the frames depend on the input alone. */
  method StreamAudio(c: Client, input: seq<int16>, fs: nat) returns (r: Client, frames: seq<seq<int16>>)
    requires fs >= 1
    ensures Flatten(frames) == input
    ensures Framed(frames, fs)
    ensures frames == Chunks(input, fs)
    ensures r == AfterPlayback(c)
  {
    var locked := LockAudio(c);
    frames := [];
    var buf: seq<int16> := [];
    var j := 0;
    while j < |input|
      invariant 0 <= j <= |input|
      invariant Flatten(frames) + buf == input[..j]
      invariant forall k :: 0 <= k < |frames| ==> |frames[k]| == fs
      invariant |buf| < fs
    {
      FlattenSnoc(frames, buf + [input[j]]);
      assert input[..j + 1] == input[..j] + [input[j]];
      buf := buf + [input[j]];
      if |buf| == fs {
        frames := frames + [buf];
        buf := [];
      }
      j := j + 1;
    }
    assert input[..j] == input;
    if |buf| > 0 {
      FlattenSnoc(frames, buf);
      frames := frames + [buf];
    }
    FramedUnique(frames, input, fs);
    r := AfterPlayback(c);
  }

  /** A stop flag left set by an earlier `StopAudio` makes the next
      `SendAudio` push exactly one frame when there is one to push. */
  lemma StaleStopSendsOneFrame(c: Client, samples: seq<int16>, fs: nat, raised: Option<nat>)
    requires fs >= 1 && |samples| >= fs
    ensures |Sent(samples, fs, StopIndex(StopAudio(c).stopAudio, raised))| == 1
  {
    DivStep(|samples|, fs);
  }
}
