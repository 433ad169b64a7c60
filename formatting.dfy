/**
 * The length limits the slash commands and the alert embed apply to text
 * before handing it to Discord, and the clamping of the `days` / `hours`
 * arguments.
 */
module Formatting {
  import Strings

  /** The marker appended to a cut text. */
  const Ellipsis: string := "..."
  /** The most characters the bot puts in one embed field value. */
  const FieldLimit: nat := 1024
  /** The most characters the bot puts in the hourly embed's description. */
  const DescriptionLimit: nat := 4096
  /** The most characters of an outlook product kept before the marker. */
  const OutlookLimit: nat := 4000
  /** The most fields the outlook embed gets. */
  const OutlookFieldCount: nat := 4

  /** `if len(s) > limit: s = s[:limit - 3] + "..."`: a text that fits is
      kept, a longer one is cut so that with the marker it is exactly
      `limit` characters long. */
  function Truncate(s: string, limit: nat): (r: string)
    requires limit >= |Ellipsis|
    ensures |r| <= limit
    ensures |s| <= limit <==> r == s
    ensures |s| > limit ==>
              |r| == limit && r[..limit - 3] == s[..limit - 3] && r[limit - 3..] == Ellipsis
  {
    if |s| > limit then s[..limit - 3] + Ellipsis else s
  }

  /** Cutting a text a second time changes nothing. */
  lemma TruncateIdempotent(s: string, limit: nat)
    requires limit >= |Ellipsis|
    ensures Truncate(Truncate(s, limit), limit) == Truncate(s, limit)
  {
  }

  /** The alert embed's description and instruction fields. */
  function AlertField(s: string): (r: string)
    ensures |r| <= FieldLimit
    ensures |s| <= FieldLimit <==> r == s
    ensures |s| > FieldLimit ==> |r| == FieldLimit && r[..FieldLimit - 3] == s[..FieldLimit - 3]
  {
    Truncate(s, FieldLimit)
  }

  /** The hourly embed's description. */
  function HourlyDescription(s: string): (r: string)
    ensures |r| <= DescriptionLimit
    ensures |s| <= DescriptionLimit <==> r == s
    ensures |s| > DescriptionLimit ==> |r| == DescriptionLimit && r[..DescriptionLimit - 3] == s[..DescriptionLimit - 3]
  {
    Truncate(s, DescriptionLimit)
  }

  /** The outlook text after `if len(t) > 4000: t = t[:4000] + "..."`: the
      marker comes after the first 4000 characters, so the result may be
      4003 characters long. */
  function OutlookText(productText: string): (r: string)
    ensures |r| <= OutlookLimit + |Ellipsis|
    ensures |productText| <= OutlookLimit ==> r == productText
    ensures |productText| > OutlookLimit ==>
              |r| == OutlookLimit + |Ellipsis| && r[..OutlookLimit] == productText[..OutlookLimit] && r[OutlookLimit..] == Ellipsis
  {
    if |productText| > OutlookLimit then productText[..OutlookLimit] + Ellipsis else productText
  }

  /** `[s[i:i+n] for i in range(0, len(s), n)]`: consecutive pieces of `n`
      characters, the last one possibly shorter, none empty. */
  function Chunks(s: string, n: nat): (r: seq<string>)
    requires n > 0
    ensures forall i :: 0 <= i < |r| ==> 0 < |r[i]| <= n
    ensures forall i :: 0 <= i < |r| - 1 ==> |r[i]| == n
    ensures s == [] <==> r == []
    decreases |s|
  {
    if s == [] then []
    else if |s| <= n then [s]
    else [s[..n]] + Chunks(s[n..], n)
  }

  /** The pieces written one after the other. */
  function Concat(parts: seq<string>): string
    decreases |parts|
  {
    if parts == [] then "" else parts[0] + Concat(parts[1..])
  }

  /** Chunking loses and reorders nothing. */
  lemma {:induction false} ConcatChunks(s: string, n: nat)
    requires n > 0
    ensures Concat(Chunks(s, n)) == s
    decreases |s|
  {
    if |s| > n {
      ConcatChunks(s[n..], n);
      assert ([s[..n]] + Chunks(s[n..], n))[1..] == Chunks(s[n..], n);
    }
  }

  /** A text of at most `k * n` characters makes at most `k` chunks. */
  lemma {:induction false} ChunksAtMost(s: string, n: nat, k: nat)
    requires n > 0 && |s| <= k * n
    ensures |Chunks(s, n)| <= k
    decreases k
  {
    if |s| > n {
      assert k > 1;
      assert (k - 1) * n == k * n - n;
      ChunksAtMost(s[n..], n, k - 1);
    }
  }

  /** The field values of the outlook embed: the first four chunks of 1024. */
  function OutlookFields(productText: string): (fields: seq<string>)
    ensures |fields| <= OutlookFieldCount
    ensures forall i :: 0 <= i < |fields| ==> 0 < |fields[i]| <= FieldLimit
  {
    Strings.Take(Chunks(OutlookText(productText), FieldLimit), OutlookFieldCount)
  }

  /** The four-field cap never drops text: the 4003 characters the cut
      leaves fit in four fields of 1024, so the fields hold exactly the cut
      outlook. */
  lemma OutlookFieldsComplete(productText: string)
    ensures Concat(OutlookFields(productText)) == OutlookText(productText)
    ensures |productText| <= OutlookLimit ==> Concat(OutlookFields(productText)) == productText
  {
    var text := OutlookText(productText);
    ChunksAtMost(text, FieldLimit, OutlookFieldCount);
    ConcatChunks(text, FieldLimit);
  }

  /** `min(max(n, lo), hi)`. */
  function Clamp(n: int, lo: int, hi: int): (r: int)
    requires lo <= hi
    ensures lo <= r <= hi
    ensures lo <= n <= hi <==> r == n
    ensures n < lo ==> r == lo
    ensures n > hi ==> r == hi
  {
    var atLeast := if n < lo then lo else n;
    if atLeast > hi then hi else atLeast
  }

  /** The forecast periods `/forecast days` shows: the first `days`
      periods, `days` clamped to 1..14. */
  function ForecastPeriods<T>(periods: seq<T>, days: int): (shown: seq<T>)
    ensures |shown| == if |periods| <= Clamp(days, 1, 14) then |periods| else Clamp(days, 1, 14)
    ensures shown == periods[..|shown|]
    ensures 1 <= |shown| <= 14 || periods == []
  {
    Strings.Take(periods, Clamp(days, 1, 14))
  }

  /** The hourly periods `/hourly hours` shows: the first `hours`
      periods, `hours` clamped to 1..24. */
  function HourlyPeriods<T>(periods: seq<T>, hours: int): (shown: seq<T>)
    ensures |shown| == if |periods| <= Clamp(hours, 1, 24) then |periods| else Clamp(hours, 1, 24)
    ensures shown == periods[..|shown|]
    ensures 1 <= |shown| <= 24 || periods == []
  {
    Strings.Take(periods, Clamp(hours, 1, 24))
  }
}
