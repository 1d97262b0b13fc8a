/** The small decisions the client makes from a number or a key: the capture resolution
    for a quality setting, the grid layout for a participant count, the network quality
    for a measured ping, and the typing-indicator sentence for a list of typists. */
module Display {
  import opened Common

  datatype Resolution = Resolution(width: nat, height: nat)

  /** The table of `getVideoResolution` (main.js:727-732). */
  const Resolutions: map<string, Resolution> := map[
    "1080p" := Resolution(1920, 1080),
    "720p" := Resolution(1280, 720),
    "480p" := Resolution(854, 480),
    "360p" := Resolution(640, 360)]

  /** `resolutions[quality] || resolutions['720p']` (main.js:726-735). */
  function VideoResolution(quality: string): (r: Resolution)
    ensures quality in Resolutions ==> r == Resolutions[quality]
    ensures quality !in Resolutions ==> r == Resolution(1280, 720)
  {
    if quality in Resolutions then Resolutions[quality] else Resolutions["720p"]
  }

  /** Every setting, known or not, gets one of the four table entries, and no entry is
      larger than 1920 by 1080. */
  lemma ResolutionIsTabled(quality: string)
    ensures VideoResolution(quality) in Resolutions.Values
    ensures VideoResolution(quality).width <= 1920 && VideoResolution(quality).height <= 1080
  {
    assert Resolutions["720p"] == Resolution(1280, 720);
  }

  /** A larger quality name never gives a smaller picture: the table is ordered. */
  lemma {:induction false} ResolutionsOrdered()
    ensures VideoResolution("360p").height < VideoResolution("480p").height < VideoResolution("720p").height < VideoResolution("1080p").height
    ensures VideoResolution("360p").width < VideoResolution("480p").width < VideoResolution("720p").width < VideoResolution("1080p").width
  {
    assert "360p" in Resolutions && "480p" in Resolutions && "720p" in Resolutions && "1080p" in Resolutions;
  }

  datatype Layout = Layout1 | Layout2 | Layout3to4 | Layout5to6

  /** The CSS class a layout applies to the video grid. */
  function LayoutClassName(l: Layout): string {
    match l
    case Layout1 => "layout-1"
    case Layout2 => "layout-2"
    case Layout3to4 => "layout-3-4"
    case Layout5to6 => "layout-5-6"
  }

  /** The largest count a layout is meant for. */
  function Capacity(l: Layout): nat {
    match l
    case Layout1 => 1
    case Layout2 => 2
    case Layout3to4 => 4
    case Layout5to6 => 6
  }

  /** The layout `updateLayout(participantCount)` applies (main.js:1306-1327). */
  function LayoutFor(participantCount: int): (l: Layout)
    ensures l == Layout1 <==> participantCount == 1
    ensures l == Layout2 <==> participantCount == 2
    ensures l == Layout3to4 <==> participantCount <= 4 && participantCount != 1 && participantCount != 2
    ensures l == Layout5to6 <==> participantCount > 4
  {
    if participantCount == 1 then Layout1
    else if participantCount == 2 then Layout2
    else if participantCount <= 4 then Layout3to4
    else Layout5to6
  }

  /** For the counts a room can hold (the caller passes `participants.size + 1`), the
      chosen layout has room for everyone, and the smallest such layout is chosen. */
  lemma LayoutFits(n: int)
    requires 1 <= n <= 6
    ensures n <= Capacity(LayoutFor(n))
    ensures forall l: Layout :: n <= Capacity(l) ==> Capacity(LayoutFor(n)) <= Capacity(l)
  {
  }

  /** More participants never give a layout for fewer, as long as there is someone. */
  lemma LayoutMonotone(n: int, m: int)
    requires 1 <= n <= m
    ensures Capacity(LayoutFor(n)) <= Capacity(LayoutFor(m))
  {
  }

  /** A count below one, which the callers never pass, falls into the four-tile branch. */
  lemma EmptyCountGetsGrid(n: int)
    requires n <= 0
    ensures LayoutFor(n) == Layout3to4
  {
  }

  datatype Quality = Excellent | Good | Poor

  function QualityName(q: Quality): string {
    match q
    case Excellent => "excellent"
    case Good => "good"
    case Poor => "poor"
  }

  /** The classification in `checkNetworkHealth` (main.js:2350-2356). */
  function PingQuality(ping: int): (q: Quality)
    ensures q == Poor <==> ping > 150
    ensures q == Good <==> 50 < ping <= 150
    ensures q == Excellent <==> ping <= 50
  {
    if ping > 150 then Poor else if ping > 50 then Good else Excellent
  }

  /** A rank in which a larger number is a better connection. */
  function Rank(q: Quality): nat {
    match q
    case Poor => 0
    case Good => 1
    case Excellent => 2
  }

  /** A slower answer never rates better. */
  lemma QualityMonotone(p1: int, p2: int)
    requires p1 <= p2
    ensures Rank(PingQuality(p2)) <= Rank(PingQuality(p1))
  {
  }

  datatype NetworkStatus = NetworkStatus(quality: Quality, ping: int)

  /** `checkNetworkHealth()` (main.js:2337-2368): `measured` is the round trip of the
      `HEAD /` request, or `None` when the request rejects. */
  function NetworkCheck(measured: Option<int>): (s: NetworkStatus)
    ensures measured.Some? ==> s == NetworkStatus(PingQuality(measured.value), measured.value)
    ensures measured.None? ==> s == NetworkStatus(Poor, 999)
  {
    match measured
    case Some(ping) => NetworkStatus(PingQuality(ping), ping)
    case None => NetworkStatus(Poor, 999)
  }

  /** A failed check reports what a measured ping of 999 would: the stored status always
      agrees with the classification of its own ping. */
  lemma NetworkStatusAgrees(measured: Option<int>)
    ensures NetworkCheck(measured).quality == PingQuality(NetworkCheck(measured).ping)
  {
  }

  const TypesOne: string := " печатает"
  const TypeMany: string := " печатают"

  /** The typing-indicator text of `updateTypingIndicator` (main.js:2655-2697); `None`
      when the indicator is removed. */
  function TypingText(names: seq<string>): (text: Option<string>)
    ensures text.None? <==> |names| == 0
    ensures |names| == 1 ==> text == Some(names[0] + TypesOne)
    ensures |names| == 2 ==> text == Some(names[0] + " и " + names[1] + TypeMany)
    ensures |names| >= 3 ==> text == Some(NatToString(|names|) + " участников" + TypeMany)
  {
    if |names| == 0 then None
    else if |names| == 1 then Some(names[0] + TypesOne)
    else if |names| == 2 then Some(names[0] + " и " + names[1] + TypeMany)
    else Some(NatToString(|names|) + " участников" + TypeMany)
  }

  /** The longest prefix of decimal digits. */
  function DigitPrefix(s: string): (p: string)
    ensures p <= s && AllDigits(p)
    ensures |p| < |s| ==> !('0' <= s[|p|] <= '9')
  {
    if s == [] || !('0' <= s[0] <= '9') then []
    else
      var rest := DigitPrefix(s[1..]);
      assert [s[0]] + rest <= s;
      [s[0]] + rest
  }

  lemma {:induction false} DigitPrefixOfNumeral(digits: string, rest: string)
    requires AllDigits(digits)
    requires |rest| > 0 && !('0' <= rest[0] <= '9')
    ensures DigitPrefix(digits + rest) == digits
  {
    if digits != [] {
      assert (digits + rest)[1..] == digits[1..] + rest;
      DigitPrefixOfNumeral(digits[1..], rest);
    } else {
      assert digits + rest == rest;
    }
  }

  /** With three or more typists the sentence starts with their number, which reads back
      as exactly the count; with one or two it names each of them. */
  lemma {:induction false} TypingTextTellsCount(names: seq<string>)
    ensures |names| >= 3 ==> DigitsValue(DigitPrefix(TypingText(names).value)) == |names|
    ensures 1 <= |names| <= 2 ==> names[0] <= TypingText(names).value
    ensures |names| == 2 ==> names[1] <= TypingText(names).value[|names[0]| + |" и "|..]
  {
    if |names| >= 3 {
      var digits := NatToString(|names|);
      var rest := " участников" + TypeMany;
      assert TypingText(names).value == digits + rest;
      DigitPrefixOfNumeral(digits, rest);
    } else if |names| == 2 {
      var t := TypingText(names).value;
      assert t == names[0] + " и " + names[1] + TypeMany;
      assert t[|names[0]| + |" и "|..] == names[1] + TypeMany;
    }
  }
}
