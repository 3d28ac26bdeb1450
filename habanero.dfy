/**
 * The ranked track progress of src/routes/habanero.ts: clients from
 * season 24.40 on get two ranked tracks for the account in the path, older
 * clients get none.
 */
module Habanero {
  import opened Wrappers
  import opened Text
  import opened Numbers
  import opened GameVersion

  /** One record of the answer; `currentPlayerRanking` is always null and is not stored. */
  datatype Track = Track(
    gameId: string,
    trackguid: string,
    accountId: string,
    rankingType: string,
    lastUpdated: string,
    currentDivision: int,
    highestDivision: int,
    promotionProgress: Decimal)

  /** The build ranked play came with, 24.4. */
  const RankedBuild: Decimal := Decimal(244, -1)

  /**
   * `ver.season < 24 || (ver.season === 24 && ver.build < 24.4)`; a NaN
   * season or build makes every comparison false.
   */
  predicate BeforeRanked(v: Version) {
    (v.season.Some? && v.season.value < 24)
    || (v.season == Some(24) && v.build.Some? && Less(v.build.value, RankedBuild))
  }

  /** The zero-build track and the battle royale track, in that order. */
  function RankedTracks(accountId: string): (r: seq<Track>)
    ensures |r| == 2 && r[0].rankingType == "ranked-zb" && r[1].rankingType == "ranked-br"
    ensures forall t :: t in r ==> t.gameId == "fortnite" && t.accountId == accountId
  {
    [Track("fortnite", "hEKWqj", accountId, "ranked-zb", "1970-01-01T00:00:00Z", 0, 0, Decimal(0, 0)),
     Track("fortnite", "OiK9k9", accountId, "ranked-br", "2023-11-05T19:51:28.002Z", 9, 18, Decimal(88, -2))]
  }

  /** The answer of `GET /api/v1/games/fortnite/trackprogress/:accountId`. */
  function TrackProgress(v: Version, accountId: string): (r: seq<Track>)
    ensures r == [] || r == RankedTracks(accountId)
  {
    if BeforeRanked(v) then [] else RankedTracks(accountId)
  }

  /** Seasons before 24 get no tracks. */
  lemma EarlySeasons(v: Version, accountId: string)
    requires v.season.Some? && v.season.value < 24
    ensures TrackProgress(v, accountId) == []
  {
  }

  /** In season 24 the build decides: below 24.4 there are no tracks, from 24.4 on (or NaN) both. */
  lemma SeasonTwentyFour(v: Version, accountId: string)
    requires v.season == Some(24)
    ensures v.build.Some? && Less(v.build.value, RankedBuild) ==> TrackProgress(v, accountId) == []
    ensures !(v.build.Some? && Less(v.build.value, RankedBuild)) ==> TrackProgress(v, accountId) == RankedTracks(accountId)
  {
  }

  /** Seasons after 24 get both tracks whatever the build. */
  lemma LaterSeasons(v: Version, accountId: string)
    requires v.season.Some? && v.season.value > 24
    ensures TrackProgress(v, accountId) == RankedTracks(accountId)
  {
  }

  /** A season that is not a number passes the gate, as every comparison with NaN is false. */
  lemma NaNSeasonPasses(v: Version, accountId: string)
    requires v.season.None?
    ensures TrackProgress(v, accountId) == RankedTracks(accountId)
  {
  }

  /** A client without "Release-" in its user-agent reads as season 0 and gets no tracks. */
  lemma NoReleaseNoTracks(ua: string, accountId: string)
    requires ua == "" || !Contains(ua, "Release-")
    ensures TrackProgress(GetVersion(ua), accountId) == []
  {
    DefaultsWithoutRelease(ua);
  }
}
