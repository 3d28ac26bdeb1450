/**
 * `getVersion` of src/utils/handlers/getVersion.ts: the game version read
 * from a Fortnite client's user-agent, such as
 * `Fortnite/++Fortnite+Release-24.40-CL-29045634 Windows/10.0.19045.1.256.64bit`.
 */
module GameVersion {
  import opened Wrappers
  import opened Text
  import opened Numbers

  /**
   * Season and build as numbers (`None` is NaN), the changelist and the lobby
   * name. The build is the decimal `major.minorpatch`.
   */
  datatype Version = Version(season: Option<int>, build: Option<Decimal>, cl: string, lobby: string)

  /** What a request without a usable user-agent gets. */
  const DefaultVersion: Version := Version(Some(0), Some(Decimal(0, 0)), "0", "")

  /** `a[i]` rendered in a template literal: a missing piece reads "undefined". */
  function PieceText(parts: seq<string>, i: nat): string {
    if i < |parts| then parts[i] else "undefined"
  }

  /** The last `-` piece of the user-agent, cut at the first space and then at the first comma. */
  function Changelist(ua: string): string {
    var dash := Split(ua, '-');
    Split(Split(dash[|dash| - 1], ' ')[0], ',')[0]
  }

  /** The text after "Release-" up to the next `-`. */
  function ReleaseText(ua: string, at: nat): string
    requires at + 8 <= |ua|
  {
    Split(ua[at + 8..], '-')[0]
  }

  /**
   * `getVersion(c)` for the user-agent header `ua` ("" when the header is
   * missing, which the source treats alike). Without "Release-" the
   * changelist is computed and dropped, so the defaults stay.
   */
  function GetVersion(ua: string): Version {
    if ua == "" then DefaultVersion
    else
      var at := IndexOf(ua, "Release-");
      if at == -1 then DefaultVersion
      else FromParts(Split(ReleaseText(ua, at), '.'), Changelist(ua))
  }

  /** The version read from the dot pieces of the release text and the changelist. */
  function FromParts(parts: seq<string>, cl: string): Version
    requires |parts| >= 1
  {
    var season := ParseInt(parts[0]);
    var build := ParseFloat(parts[0] + "." + PieceText(parts, 1) + PieceText(parts, 2));
    Version(season, build, cl, "LobbySeason" + MaybeIntText(season))
  }

  /** Without a user-agent, or without "Release-" in it, the version is the default. */
  lemma DefaultsWithoutRelease(ua: string)
    requires ua == "" || !Contains(ua, "Release-")
    ensures GetVersion(ua) == DefaultVersion
  {
    if ua != "" {
      assert IndexOf(ua, "Release-") == -1;
    }
  }

  /** The changelist never holds a `-`, a space or a comma. */
  lemma ChangelistClean(ua: string)
    ensures '-' !in Changelist(ua) && ' ' !in Changelist(ua) && ',' !in Changelist(ua)
  {
    var dash := Split(ua, '-');
    var last := dash[|dash| - 1];
    var sp := Split(last, ' ')[0];
    var cl := Split(sp, ',')[0];
    assert cl == Changelist(ua);
    forall c | c in cl
      ensures c != '-' && c != ' '
    {
      assert c in sp;
      assert c in last;
    }
  }

  /** The lobby always names the season it reports. */
  lemma LobbyNamesSeason(ua: string)
    requires GetVersion(ua) != DefaultVersion
    ensures GetVersion(ua).lobby == "LobbySeason" + MaybeIntText(GetVersion(ua).season)
  {
  }

  /** Text free of `-` and followed by nothing or a `-` is the first `-` piece. */
  lemma FirstDashPiece(release: string, rest: string)
    requires '-' !in release
    requires rest == "" || rest[0] == '-'
    ensures Split(release + rest, '-')[0] == release
  {
    SplitPrefix(release, rest, '-');
    if rest != "" {
      assert Split(rest, '-')[0] == "" by {
        assert rest == [rest[0]] + rest[1..];
      }
    }
    assert release + "" == release;
  }

  /** Three digit strings joined by dots split back into the three. */
  lemma DottedParts(major: string, minor: string, patch: string)
    requires AllDigits(major) && AllDigits(minor) && AllDigits(patch)
    ensures Split(major + "." + minor + "." + patch, '.') == [major, minor, patch]
  {
    assert major + "." + minor + "." + patch == Join([major, minor, patch], '.') by {
      assert Join([patch], '.') == patch;
      assert [major, minor, patch][1..] == [minor, patch];
      assert [minor, patch][1..] == [patch];
    }
    SplitJoin([major, minor, patch], '.');
  }

  /**
   * A release `major.minor.patch` of digits: the season is `major` and the
   * build is `major.minorpatch`, e.g. 24.40.0 gives season 24 and build 24.400.
   */
  lemma ReleaseNumbers(ua: string, major: string, minor: string, patch: string, rest: string)
    requires IndexOf(ua, "Release-") != -1
    requires var at := IndexOf(ua, "Release-");
      ua[at + 8..] == major + "." + minor + "." + patch + rest
    requires |major| > 0 && AllDigits(major) && AllDigits(minor) && AllDigits(patch)
    requires rest == "" || rest[0] == '-'
    ensures GetVersion(ua).season == Some(DigitsValue(major))
    ensures GetVersion(ua).build == Some(Decimal(DigitsValue(major + (minor + patch)), -|minor + patch|))
    ensures GetVersion(ua).lobby == "LobbySeason" + NatText(DigitsValue(major))
    ensures GetVersion(ua).cl == Changelist(ua)
  {
    var at := IndexOf(ua, "Release-");
    var release := major + "." + minor + "." + patch;
    FirstDashPiece(release, rest);
    assert ReleaseText(ua, at) == release;
    DottedParts(major, minor, patch);
    AllDigitsAppend(minor, patch);
    DigitParts(major, minor, patch, Changelist(ua));
  }

  /** The version read from three digit pieces. */
  lemma DigitParts(major: string, minor: string, patch: string, cl: string)
    requires |major| > 0 && AllDigits(major) && AllDigits(minor + patch)
    ensures FromParts([major, minor, patch], cl) ==
      Version(Some(DigitsValue(major)), Some(Decimal(DigitsValue(major + (minor + patch)), -|minor + patch|)),
              cl, "LobbySeason" + NatText(DigitsValue(major)))
  {
    var parts := [major, minor, patch];
    assert parts[0] + "." + PieceText(parts, 1) + PieceText(parts, 2) == major + "." + (minor + patch) + "";
    FractionBuild(major, minor, patch);
    ParseIntDigits(major, "");
    assert major + "" == major;
  }

  /** `parseFloat` of `major.minorpatch`. */
  lemma FractionBuild(major: string, minor: string, patch: string)
    requires |major| > 0 && AllDigits(major) && AllDigits(minor + patch)
    ensures ParseFloat(major + "." + (minor + patch) + "") == Some(Decimal(DigitsValue(major + (minor + patch)), -|minor + patch|))
  {
    ParseFloatDigits(major, minor + patch, "");
  }
}
