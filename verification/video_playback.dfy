/**
 * An abstract video player: whether it is playing and the frame it shows.
 * Decoding, timing and the advance of frames during playback belong to the
 * engine and are not modelled.
 */
module VideoPlayback {

  datatype Player = Player(playing: bool, frame: nat)

  /** The state both controllers reset to: paused on the first frame. */
  const Rewound := Player(false, 0)

  function Play(p: Player): (r: Player)
    ensures r.playing && r.frame == p.frame
  {
    p.(playing := true)
  }

  function Pause(p: Player): (r: Player)
    ensures !r.playing && r.frame == p.frame
  {
    p.(playing := false)
  }

  /** Sets `frame = 0`, leaving the playing flag alone. */
  function Rewind(p: Player): (r: Player)
    ensures r.frame == 0 && r.playing == p.playing
  {
    p.(frame := 0)
  }

  /** Whatever the player did before, rewinding and pausing (in either
      order) ends at the same state. */
  lemma RewindPauseCommute(p: Player)
    ensures Pause(Rewind(p)) == Rewind(Pause(p)) == Rewound
  {
  }
}
