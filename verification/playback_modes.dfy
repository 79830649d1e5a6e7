/** The playback mode of the `SeaPlayer` application (`seaplayer/_types.py`
    and `seaplayer/seaplayer.py`): a three-way cycle switched by a button
    whose label is looked up by a key derived from the mode's name. The
    lookup itself belongs to the language loader and is not modelled. */
module PlaybackModes {

  datatype PlaybackMode = Play | ReplaySound | ReplayList

  /** The enum values. */
  function ModeValue(m: PlaybackMode): (v: nat)
    ensures v < 3
    ensures m == Play <==> v == 0
    ensures m == ReplaySound <==> v == 1
    ensures m == ReplayList <==> v == 2
  {
    match m
    case Play => 0
    case ReplaySound => 1
    case ReplayList => 2
  }

  /** The enum member names. */
  function Name(m: PlaybackMode): string {
    match m
    case Play => "PLAY"
    case ReplaySound => "REPLAY_SOUND"
    case ReplayList => "REPLAY_LIST"
  }

  /** The mode a fresh cache starts with. */
  const DEFAULT_PLAYBACK_MODE: PlaybackMode := Play

  /** `switch_playback_mode`: PLAY, then REPLAY_SOUND, then REPLAY_LIST, then
      PLAY again. */
  function Switch(m: PlaybackMode): (r: PlaybackMode)
    ensures ModeValue(r) == (ModeValue(m) + 1) % 3
    ensures r != m
  {
    if m == Play then ReplaySound
    else if m == ReplaySound then ReplayList
    else Play
  }

  /** `str.lower` on ASCII text: upper-case letters become lower-case, every
      other character stays. */
  function Lower(s: string): (r: string)
    ensures |r| == |s|
    ensures forall i :: 0 <= i < |s| ==>
      r[i] == (if 'A' <= s[i] <= 'Z' then (s[i] as int + 32) as char else s[i])
  {
    seq(|s|, i requires 0 <= i < |s| => if 'A' <= s[i] <= 'Z' then (s[i] as int + 32) as char else s[i])
  }

  const MODE_KEY_PREFIX: string := "player.button.mode."

  /** The language key `get_playback_mode_text` looks up. */
  function ModeTextKey(m: PlaybackMode): (k: string)
    ensures |k| > |MODE_KEY_PREFIX| && k[..|MODE_KEY_PREFIX|] == MODE_KEY_PREFIX
    ensures k[|MODE_KEY_PREFIX|..] == Lower(Name(m))
  {
    MODE_KEY_PREFIX + Lower(Name(m))
  }

  /** The handler's effect: the next mode, and the key of the button's new
      label. */
  function SwitchPlaybackMode(m: PlaybackMode): (r: (PlaybackMode, string))
    ensures r.0 == Switch(m)
    ensures r.1 == ModeTextKey(r.0)
  {
    var next := Switch(m);
    (next, ModeTextKey(next))
  }

  /** Three presses bring the mode back; fewer never do. */
  lemma {:induction false} SwitchCycle(m: PlaybackMode)
    ensures Switch(Switch(Switch(m))) == m
    ensures Switch(Switch(m)) != m
  {
  }

  /** Distinct modes have distinct label keys: the lower-cased names differ
      in length. */
  lemma {:induction false} ModeTextKeyInjective(m: PlaybackMode, n: PlaybackMode)
    ensures ModeTextKey(m) == ModeTextKey(n) ==> m == n
  {
    assert |ModeTextKey(m)| == |MODE_KEY_PREFIX| + |Name(m)|;
    assert |ModeTextKey(n)| == |MODE_KEY_PREFIX| + |Name(n)|;
  }

  /** The label keys, spelled out. */
  lemma {:induction false} PlayKey()
    ensures ModeTextKey(Play) == "player.button.mode.play"
  {
    var l := Lower("PLAY");
    assert l[0] == 'p' && l[1] == 'l' && l[2] == 'a' && l[3] == 'y';
    assert l == "play";
  }

  lemma {:induction false} ReplaySoundKey()
    ensures ModeTextKey(ReplaySound) == "player.button.mode.replay_sound"
  {
    var l := Lower("REPLAY_SOUND");
    assert l[0] == 'r' && l[1] == 'e' && l[2] == 'p' && l[3] == 'l' && l[4] == 'a' && l[5] == 'y';
    assert l[6] == '_' && l[7] == 's' && l[8] == 'o' && l[9] == 'u' && l[10] == 'n' && l[11] == 'd';
    assert l == "replay_sound";
  }

  lemma {:induction false} ReplayListKey()
    ensures ModeTextKey(ReplayList) == "player.button.mode.replay_list"
  {
    var l := Lower("REPLAY_LIST");
    assert l[0] == 'r' && l[1] == 'e' && l[2] == 'p' && l[3] == 'l' && l[4] == 'a' && l[5] == 'y';
    assert l[6] == '_' && l[7] == 'l' && l[8] == 'i' && l[9] == 's' && l[10] == 't';
    assert l == "replay_list";
  }

  /** A fresh cache starts in PLAY, labelled by the `play` key; the first
      press switches to REPLAY_SOUND and relabels the button accordingly. */
  lemma {:induction false} DefaultModeFirstPress()
    ensures ModeTextKey(DEFAULT_PLAYBACK_MODE) == "player.button.mode.play"
    ensures SwitchPlaybackMode(DEFAULT_PLAYBACK_MODE) == (ReplaySound, "player.button.mode.replay_sound")
  {
    PlayKey();
    ReplaySoundKey();
  }
}
