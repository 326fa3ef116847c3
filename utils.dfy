/** The two pure helpers of src/lib/utils.ts that carry logic: `absoluteUrl`
    and `isExpired`. The environment variable and the clock they read are
    parameters here. */
module Utils {

  datatype Option<T> = None | Some(value: T)

  /** A JavaScript Date as far as comparison sees it: its time value in
      milliseconds, or NaN for an invalid date. */
  datatype Instant = At(ms: int) | InvalidDate

  /** What a template literal prints for an environment variable: its value,
      or the text "undefined" when it is not set. */
  function Interpolated(setting: Option<string>): (s: string)
    ensures setting.Some? ==> s == setting.value
    ensures setting.None? ==> s == "undefined"
  {
    match setting
    case Some(s) => s
    case None => "undefined"
  }

  /** `absoluteUrl(path)`, with NEXT_PUBLIC_APP_URL passed as `appUrl`: the
      application's base URL followed directly by the path, with no
      separator added or removed. */
  function AbsoluteUrl(appUrl: Option<string>, path: string): (url: string)
    ensures |url| == |Interpolated(appUrl)| + |path|
    ensures url[..|Interpolated(appUrl)|] == Interpolated(appUrl)
    ensures url[|Interpolated(appUrl)|..] == path
  {
    Interpolated(appUrl) + path
  }

  /** The empty path gives back the base URL itself. */
  lemma AbsoluteUrlEmptyPath(base: string)
    ensures AbsoluteUrl(Some(base), "") == base
  {
  }

  /** With the variable unset the URL begins with the text "undefined". */
  lemma AbsoluteUrlUnsetBase(path: string)
    ensures AbsoluteUrl(None, path) == "undefined" + path
  {
  }

  /** For a fixed base, the path can be read back from the URL: distinct
      paths give distinct URLs. */
  lemma AbsoluteUrlRecoversPath(appUrl: Option<string>, p: string, q: string)
    requires AbsoluteUrl(appUrl, p) == AbsoluteUrl(appUrl, q)
    ensures p == q
  {
    var n := |Interpolated(appUrl)|;
    assert p == AbsoluteUrl(appUrl, p)[n..];
  }

  /** `isExpired(date)` at the current time `now`: the date lies strictly
      before now. A comparison with NaN is false, so an invalid date is
      never expired. */
  predicate IsExpired(date: Instant, now: int): (b: bool)
    ensures date.InvalidDate? ==> !b
    ensures date.At? ==> (b <==> date.ms < now)
  {
    date.At? && date.ms < now
  }

  /** A valid date is expired exactly when it is strictly earlier than now;
      at the very same millisecond it is not yet expired. */
  lemma ExpiredIffBefore(ms: int, now: int)
    ensures IsExpired(At(ms), now) <==> ms < now
    ensures !IsExpired(At(now), now)
  {
  }

  /** An invalid date never expires. */
  lemma InvalidDateNeverExpires(now: int)
    ensures !IsExpired(InvalidDate, now)
  {
  }

  /** Once expired, a date stays expired as time moves on. */
  lemma ExpiryMonotone(date: Instant, earlier: int, later: int)
    requires IsExpired(date, earlier) && earlier <= later
    ensures IsExpired(date, later)
  {
  }
}
