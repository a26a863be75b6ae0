/** Command-line parsing and the argument handling of the bot's chat
    commands (bot/util.go, cmd/mumble_bot/util.go, bot/commands.go). What a
    command finally does (looping or playing a file once, running a script,
    dispatching a line) is returned as a reply naming that action;
    `path.Join`, the command dispatcher and the volume bounds are
    parameters. */
module Commands {
  import opened Errors
  import opened Strings
  import Decoders

  /** `parseCommand(s)`: the text up to the first space is the command, and
      every further space starts a new argument. */
  function ParseCommand(s: string): (r: (string, seq<string>))
    ensures ' ' !in r.0
    ensures forall i :: 0 <= i < |r.1| ==> ' ' !in r.1[i]
    ensures |r.1| == Count(s, ' ')
  {
    var parts := Split(s, ' ');
    (parts[0], parts[1..])
  }

  /** A command and its arguments written back as one line. */
  function Unparse(cmd: string, args: seq<string>): string
  {
    Join([cmd] + args, " ")
  }

  /** The command followed by a space and each argument gives the input
      back: parsing loses nothing. */
  lemma ParseCommandInverse(s: string)
    ensures Unparse(ParseCommand(s).0, ParseCommand(s).1) == s
  {
    var parts := Split(s, ' ');
    assert [parts[0]] + parts[1..] == parts;
    JoinSplit(s, ' ');
  }

  /** Parsing a line built from space-free parts gives the parts back. */
  lemma UnparseInverse(cmd: string, args: seq<string>)
    requires ' ' !in cmd
    requires forall i :: 0 <= i < |args| ==> ' ' !in args[i]
    ensures ParseCommand(Unparse(cmd, args)) == (cmd, args)
  {
    var parts := [cmd] + args;
    assert forall i :: 1 <= i < |parts| ==> parts[i] == args[i - 1];
    SplitJoin(parts, ' ');
    assert parts[1..] == args;
  }

  /** `keys(m)`: every key exactly once, in the map's (unspecified)
      iteration order. */
  method Keys<V>(m: map<string, V>) returns (ks: seq<string>)
    ensures |ks| == |m|
    ensures forall k :: k in ks <==> k in m
    ensures forall i, j :: 0 <= i < j < |ks| ==> ks[i] != ks[j]
  {
    ks := [];
    var rest := m.Keys;
    while rest != {}
      invariant rest <= m.Keys
      invariant forall k :: k in ks <==> k in m && k !in rest
      invariant forall i, j :: 0 <= i < j < |ks| ==> ks[i] != ks[j]
      invariant |ks| + |rest| == |m.Keys|
      decreases |rest|
    {
      var k :| k in rest;
      ks := ks + [k];
      rest := rest - {k};
    }
    assert |m| == |m.Keys|;
  }

  /** What the fallback handler does with a command. */
  datatype DefaultReply =
    | Dispatch(line: string)   // c.HandleCommand(line)
    | Unknown(msg: string)

  /** `commandDefault`: a configured alias is re-dispatched with the
      arguments appended after one space, when there are any; any other
      command is reported as unknown. */
  function CommandDefault(aliases: map<string, string>, cmd: string, args: seq<string>): (r: DefaultReply)
    ensures r.Unknown? <==> cmd !in aliases
    ensures r.Unknown? ==> r.msg == "Unknown command: " + cmd
    ensures r.Dispatch? ==> aliases[cmd] <= r.line && (|r.line| == |aliases[cmd]| <==> |args| == 0)
  {
    if cmd in aliases then
      var alias := aliases[cmd];
      Dispatch(if |args| > 0 then alias + " " + Join(args, " ") else alias)
    else
      Unknown("Unknown command: " + cmd)
  }

  /** Expanding an alias keeps the arguments: the dispatched line parses to
      the alias's own command, with the alias's arguments followed by the
      original ones. */
  lemma AliasKeepsArguments(aliases: map<string, string>, cmd: string, args: seq<string>)
    requires cmd in aliases
    requires forall i :: 0 <= i < |args| ==> ' ' !in args[i]
    ensures CommandDefault(aliases, cmd, args).Dispatch?
    ensures ParseCommand(CommandDefault(aliases, cmd, args).line) ==
      (ParseCommand(aliases[cmd]).0, ParseCommand(aliases[cmd]).1 + args)
  {
    var alias := aliases[cmd];
    var parts := Split(alias, ' ');
    if |args| > 0 {
      JoinSplit(alias, ' ');
      JoinAppend(parts, args, " ");
      var all := parts + args;
      assert forall i :: 0 <= i < |all| ==> ' ' !in all[i] by {
        forall i | 0 <= i < |all|
          ensures ' ' !in all[i]
        {
          if i >= |parts| {
            assert all[i] == args[i - |parts|];
          }
        }
      }
      SplitJoin(all, ' ');
      var line := CommandDefault(aliases, cmd, args).line;
      assert line == Join(all, " ");
      assert Split(line, ' ') == all;
      assert all[0] == parts[0];
      assert all[1..] == parts[1..] + args;
    } else {
      assert ParseCommand(alias).1 + args == ParseCommand(alias).1;
    }
  }

  /** What the shell command does. */
  datatype ShellReply =
    | NotEnabled(cmd: string)     // "%q command is not enabled"
    | ShellUsage(cmd: string)     // "Usage: %s <scripts> [arguments...]"
    | InvalidName(name: string)   // "Invalid command: %q"
    | Run(path: string, args: seq<string>)

  /** `CommandShell` up to the point where the script is started: the
      script directory must be configured, a script name must be given,
      and the name must not contain '/' or '\'. */
  function CommandShell(dir: string, cmd: string, args: seq<string>, join: (string, string) -> string): (r: ShellReply)
    ensures r.NotEnabled? <==> dir == ""
    ensures r.ShellUsage? <==> dir != "" && |args| == 0
    ensures r.InvalidName? <==> dir != "" && |args| > 0 && ('/' in args[0] || '\\' in args[0])
    ensures r.Run? ==> '/' !in args[0] && '\\' !in args[0] && r.path == join(dir, args[0]) && r.args == args[1..]
  {
    if dir == "" then NotEnabled(cmd)
    else if |args| == 0 then ShellUsage(cmd)
    else
      var name := args[0];
      if '/' in name || '\\' in name then InvalidName(name)
      else Run(join(dir, name), args[1..])
  }

  /** A script runs exactly when the directory is configured and the first
      argument is a plain name; the other arguments pass through unchanged. */
  lemma ShellRunsPlainNames(dir: string, cmd: string, args: seq<string>, join: (string, string) -> string)
    ensures CommandShell(dir, cmd, args, join).Run? <==>
      dir != "" && |args| > 0 && '/' !in args[0] && '\\' !in args[0]
  {
  }

  /** The sound file extension; it selects the Opus decoder. */
  const SoundExtension: string := ".opus"

  lemma SoundExtensionIsOpus()
    ensures SoundExtension in Decoders.Registry
    ensures Decoders.Registry[SoundExtension] == Decoders.OpusDecoder
  {
  }

  /** The configured sound directories. */
  datatype Sounds = Sounds(hold: string, clips: string)

  /** How a sound file is played: hold music loops until stopped
      (`c.PlayHold`), a clip plays once (`c.PlaySound`). */
  datatype PlayMode = Looped | Once

  /** What the hold and clip commands do. */
  datatype SoundReply =
    | SoundUsage(cmd: string, listing: string)   // usage listing the sounds in `listing`
    | Play(mode: PlayMode, name: string, file: string)

  /** The file a sound command plays: the arguments joined by spaces,
      under the clips directory, with the sound extension. */
  function SoundFile(clips: string, args: seq<string>, join: (string, string) -> string): string
  {
    join(clips, Join(args, " ")) + SoundExtension
  }

  /** `CommandHold`: without arguments, the usage lists the hold
      directory; otherwise the file, looked up in the clips directory, is
      played in a loop. */
  function CommandHold(s: Sounds, cmd: string, args: seq<string>, join: (string, string) -> string): (r: SoundReply)
    ensures r.SoundUsage? <==> |args| == 0
    ensures r.SoundUsage? ==> r.listing == s.hold && r.cmd == cmd
    ensures r.Play? ==> r.mode == Looped
    ensures r.Play? ==> r.name == Join(args, " ") && r.file == join(s.clips, r.name) + SoundExtension
  {
    if |args| < 1 then SoundUsage(cmd, s.hold)
    else Play(Looped, Join(args, " "), SoundFile(s.clips, args, join))
  }

  /** `CommandClip`: without arguments, the usage lists the clips
      directory; otherwise the file is looked up there and played once. */
  function CommandClip(s: Sounds, cmd: string, args: seq<string>, join: (string, string) -> string): (r: SoundReply)
    ensures r.SoundUsage? <==> |args| == 0
    ensures r.SoundUsage? ==> r.listing == s.clips && r.cmd == cmd
    ensures r.Play? ==> r.mode == Once
    ensures r.Play? ==> r.name == Join(args, " ") && r.file == join(s.clips, r.name) + SoundExtension
  {
    if |args| < 1 then SoundUsage(cmd, s.clips)
    else Play(Once, Join(args, " "), SoundFile(s.clips, args, join))
  }

  /** Hold plays from the clips directory, so with arguments both commands
      pick the same file and name, whatever the hold directory is; they
      differ in how the file is played (looped or once). */
  lemma HoldPlaysClips(s: Sounds, cmd: string, args: seq<string>, join: (string, string) -> string)
    requires |args| > 0
    ensures CommandHold(s, cmd, args, join).Play? && CommandHold(s, cmd, args, join).mode == Looped
    ensures CommandClip(s, cmd, args, join).Play? && CommandClip(s, cmd, args, join).mode == Once
    ensures CommandHold(s, cmd, args, join).file == CommandClip(s, cmd, args, join).file
    ensures CommandHold(s, cmd, args, join).name == CommandClip(s, cmd, args, join).name
    ensures CommandHold(s, cmd, args, join) != CommandClip(s, cmd, args, join)
  {
  }

  /** What the volume command does. */
  datatype VolumeReply =
    | Current(volume: int)       // "Volume is %+v dB (max %+v dB)"
    | VolumeUsage(cmd: string)   // "Usage: %s %v-%v (in dB)"
    | VolumeSet(volume: int)     // c.SetVolume(volume)

  /** Go's `v % 256`: the remainder takes the sign of the dividend. */
  function Rem256(a: int): (r: int)
    ensures a >= 0 ==> 0 <= r < 256
    ensures a < 0 ==> -256 < r <= 0
    ensures -256 < a < 256 ==> r == a
  {
    if a >= 0 then a % 256 else -((-a) % 256)
  }

  /** Go's `int8(x)` conversion: two's-complement truncation to 8 bits. */
  function Wrap8(x: int): (r: int)
    ensures -128 <= r <= 127
    ensures -128 <= x <= 127 ==> r == x
    ensures (r - x) % 256 == 0
  {
    var m := x % 256;
    if m < 128 then m else m - 256
  }

  /** `CommandSetVolume`: with other than one argument it reports the
      current volume; an argument that is not a signed 8-bit decimal or lies
      outside [minVolume, maxVolume] gives usage and changes nothing;
      otherwise it sets `int8(v % 256)`. */
  function CommandSetVolume(cmd: string, args: seq<string>, current: int, minVolume: int, maxVolume: int): (r: VolumeReply)
    ensures r.Current? <==> |args| != 1
    ensures r.Current? ==> r.volume == current
    ensures r.VolumeSet? <==>
      |args| == 1 && ParseInt8(args[0]).Some? && minVolume <= ParseInt8(args[0]).value <= maxVolume
    ensures r.VolumeSet? ==> r.volume == ParseInt8(args[0]).value
  {
    if |args| != 1 then Current(current)
    else
      match ParseInt8(args[0])
      case None => VolumeUsage(cmd)
      case Some(v) =>
        if v > maxVolume || v < minVolume then VolumeUsage(cmd)
        else VolumeSet(Wrap8(Rem256(v)))
  }

  /** Every volume in range that fits in 8 bits can be set by writing it
      out in decimal. */
  lemma VolumeAcceptsRendering(cmd: string, v: int, current: int, minVolume: int, maxVolume: int)
    requires -128 <= v <= 127 && minVolume <= v <= maxVolume
    ensures CommandSetVolume(cmd, [IntToString(v)], current, minVolume, maxVolume) == VolumeSet(v)
  {
    ParseIntToString(v);
  }

  /** A number outside the signed 8-bit range is refused even when the
      volume bounds would allow it. */
  lemma VolumeRejectsWide(cmd: string, v: int, current: int, minVolume: int, maxVolume: int)
    requires v < -128 || v > 127
    ensures CommandSetVolume(cmd, [IntToString(v)], current, minVolume, maxVolume) == VolumeUsage(cmd)
  {
    ParseIntToString(v);
  }
}
