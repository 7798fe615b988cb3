/**
 * The site-wide music player (components/music-player-provider.tsx): a three-track playlist
 * that cycles, a play/pause toggle, and the "all red" theme flag the other pages read. The
 * audio element itself is not modelled: whether it exists and whether `play()` succeeds are
 * parameters.
 */
module MusicPlayer {
  datatype Track = Track(file: string, title: string, artist: string)

  const Playlist: seq<Track> := [
    Track("/CANUBE.wav", "CAN U BE", "Kanye West"),
    Track("/MARGIELA.mp3", "margiela", "Ken Carson"),
    Track("/ALLRED.mp3", "ALL RED", "Playboi Carti")
  ]

  const AllRedTitle := "ALL RED"

  datatype Player = Player(playing: bool, index: int, interacted: bool)

  const Initial := Player(false, 0, false)

  predicate Inv(p: Player)
  {
    0 <= p.index < |Playlist|
  }

  /** The track after `i`, wrapping from the last back to the first. */
  function Next(i: int): (r: int)
    requires 0 <= i < |Playlist|
    ensures 0 <= r < |Playlist|
    ensures r == if i == |Playlist| - 1 then 0 else i + 1
  {
    (i + 1) % |Playlist|
  }

  /** `isAllRed`: the current track is titled "ALL RED" and it is playing. */
  predicate IsAllRed(p: Player)
    requires Inv(p)
  {
    Playlist[p.index].title == AllRedTitle && p.playing
  }

  /** Only the third track carries that title, so the theme turns red exactly while it plays. */
  lemma AllRedIsThirdTrack(p: Player)
    requires Inv(p)
    ensures IsAllRed(p) <==> p.index == 2 && p.playing
  {
    assert Playlist[0].title[0] != AllRedTitle[0];
    assert Playlist[1].title[0] != AllRedTitle[0];
  }

  /** `skipTrack`: marks the user's interaction, moves to the next track and plays. */
  function Skip(p: Player): (r: Player)
    requires Inv(p)
    ensures Inv(r) && r.playing && r.interacted
    ensures r.index == Next(p.index)
  {
    Player(true, Next(p.index), true)
  }

  /** The audio element's `ended` handler: on to the next track, still playing; it does not
      count as an interaction. */
  function Ended(p: Player): (r: Player)
    requires Inv(p)
    ensures Inv(r) && r.playing && r.interacted == p.interacted
    ensures r.index == Next(p.index)
  {
    Player(true, Next(p.index), p.interacted)
  }

  /** `togglePlayPause`. Without an audio element only the interaction is recorded; playing
      pauses; paused starts playing when `play()` succeeds and stays paused when it fails. */
  function Toggle(p: Player, audioReady: bool, playSucceeds: bool): (r: Player)
    requires Inv(p)
    ensures Inv(r) && r.interacted && r.index == p.index
    ensures !audioReady ==> r.playing == p.playing
    ensures audioReady && p.playing ==> !r.playing
    ensures audioReady && !p.playing ==> (r.playing <==> playSucceeds)
  {
    var q := p.(interacted := true);
    if !audioReady then q
    else if p.playing then q.(playing := false)
    else q.(playing := playSucceeds)
  }

  /** The effect that starts the new audio element: after an interaction, a player that
      should be playing tries `play()` and drops to paused when it fails. */
  function Settle(p: Player, playSucceeds: bool): (r: Player)
    requires Inv(p)
    ensures Inv(r) && r.index == p.index && r.interacted == p.interacted
    ensures r.playing <==> p.playing && (!p.interacted || playSucceeds)
  {
    if p.interacted && p.playing && !playSucceeds then p.(playing := false) else p
  }

  /** Skipping and finishing a track move through the playlist alike. */
  lemma SkipAndEndedAgree(p: Player)
    requires Inv(p)
    ensures Skip(p).index == Ended(p).index && Skip(p).playing == Ended(p).playing
  {
  }

  /** Three skips come back to the same track. */
  lemma ThreeSkipsCycle(p: Player)
    requires Inv(p)
    ensures Skip(Skip(Skip(p))).index == p.index
  {
  }

  /** Pausing the red track turns the theme back to white. */
  lemma PauseEndsAllRed(p: Player, playSucceeds: bool)
    requires Inv(p) && IsAllRed(p)
    ensures !IsAllRed(Toggle(p, true, playSucceeds))
  {
  }

  /** From the start, two skips reach the red track and turn the theme red. */
  lemma TwoSkipsReachAllRed()
    ensures Inv(Initial) && IsAllRed(Skip(Skip(Initial)))
  {
    AllRedIsThirdTrack(Skip(Skip(Initial)));
  }
}
