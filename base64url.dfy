/**
 * `urlBase64ToUint8Array`: turns the server's VAPID public key, written in
 * the URL-safe base64 alphabet without padding, into the bytes the push
 * manager expects.  The browser's `atob` is a parameter: it returns the
 * decoded binary string, or None where it throws.
 */
module Base64Url {
  import opened Wrappers
  import opened Text

  newtype byte = x: int | 0 <= x < 256

  type Atob = string -> Option<string>

  /** How many `=` pad a string of length `n`: the fewest that make the length a multiple of 4. */
  function PadCount(n: nat): (k: nat)
    ensures k <= 3
    ensures (n + k) % 4 == 0
    ensures n % 4 == 0 ==> k == 0
  {
    (4 - n % 4) % 4
  }

  /** No smaller padding would do: the count is the only one in 0..3 that aligns the length. */
  lemma PadCountUnique(n: nat, j: nat)
    requires j <= 3 && (n + j) % 4 == 0
    ensures j == PadCount(n)
  {
  }

  /** The string with its `=` padding. */
  function Padded(s: string): (r: string)
    ensures |r| % 4 == 0 && |s| <= |r| <= |s| + 3
    ensures s <= r
    ensures forall i :: |s| <= i < |r| ==> r[i] == '='
    ensures |s| % 4 == 0 ==> r == s
  {
    s + seq(PadCount(|s|), _ => '=')
  }

  /** The URL-safe alphabet mapped to the standard one: `-` to `+`, `_` to `/`. */
  function ToStandard(s: string): (r: string)
    ensures |r| == |s|
    ensures forall i :: 0 <= i < |s| ==>
              r[i] == if s[i] == '-' then '+' else if s[i] == '_' then '/' else s[i]
    ensures forall i :: 0 <= i < |r| ==> r[i] != '-' && r[i] != '_'
  {
    ReplaceAll(ReplaceAll(s, '-', '+'), '_', '/')
  }

  /** The standard alphabet mapped back to the URL-safe one. */
  function ToUrlSafe(s: string): (r: string)
    ensures |r| == |s|
  {
    ReplaceAll(ReplaceAll(s, '+', '-'), '/', '_')
  }

  /** A URL-safe string, which has no `+` or `/`, survives the mapping there and back. */
  lemma ToStandardRoundTrip(s: string)
    requires forall i :: 0 <= i < |s| ==> s[i] != '+' && s[i] != '/'
    ensures ToUrlSafe(ToStandard(s)) == s
  {
  }

  /** What is handed to `atob`: the padded string in the standard alphabet. */
  function Base64Of(s: string): (r: string)
    ensures |r| % 4 == 0 && |s| <= |r| <= |s| + 3
  {
    ToStandard(Padded(s))
  }

  /** Padding leaves the key's own characters in front, mapped, followed only by `=`. */
  lemma Base64OfShape(s: string)
    ensures var r := Base64Of(s);
      && (forall i :: 0 <= i < |s| ==> r[i] == if s[i] == '-' then '+' else if s[i] == '_' then '/' else s[i])
      && (forall i :: |s| <= i < |r| ==> r[i] == '=')
  {
    var p := Padded(s);
    assert forall i :: 0 <= i < |s| ==> p[i] == s[i];
  }

  /** `charCodeAt` stored into a `Uint8Array`: the code unit modulo 256. */
  function ToUint8(c: char): byte {
    (c as int % 256) as byte
  }

  /** `urlBase64ToUint8Array`: the bytes of the decoded string, one per character. */
  method UrlBase64ToUint8Array(s: string, atob: Atob) returns (r: Option<array<byte>>)
    ensures r.None? <==> atob(Base64Of(s)).None?
    ensures r.Some? ==> var raw := atob(Base64Of(s)).value;
      && fresh(r.value)
      && r.value.Length == |raw|
      && forall i :: 0 <= i < |raw| ==> r.value[i] == ToUint8(raw[i])
  {
    var rawData := atob(Base64Of(s));
    if rawData.None? {
      return None;
    }
    var raw := rawData.value;
    var output := new byte[|raw|];
    for i := 0 to |raw|
      invariant forall j :: 0 <= j < i ==> output[j] == ToUint8(raw[j])
    {
      output[i] := ToUint8(raw[i]);
    }
    r := Some(output);
  }
}
