/**
 LOGIN7 (section 2.2.6.4 of MS-TDS) in its two modes. The strict mode stops at
 the first fault; the tolerant one notes it, substitutes an empty value and goes on.
 What a feature's payload must look like is any predicate `valid`.
 */
module Login7 {
  import opened Bytes

  const LEGACY_FIXED := 86
  const EXTENDED_FIXED := 94
  const MAX_LENGTH := 128 * 1024 - 1
  const MAX_FEATURES := 256

  datatype Fault =
    | TruncatedHeader | InvalidLength | LengthDiffers | TooLong | TooManyCharacters(at: nat)
    | OutsideMessage(at: nat) | ContainsNul(at: nat) | LegacyLongSspi
    | ExtensionPointer | FeaturesOutside | NoTerminator | TruncatedFeatureLength | TruncatedFeatureData
    | BadFeature(id: byte) | FeatureLimit

  /** What one step yields and the warnings noted so far, or the fault that ended parsing. */
  type Step<T> = Result<(T, seq<Fault>), Fault>

  type Validity = (byte, Octets) -> bool

  // ----- Fields -----

  function U16At(s: Octets, p: nat): nat
    requires p + 2 <= |s|
  {
    FromU16Le(s[p..p + 2])
  }

  function U32At(s: Octets, p: nat): nat
    requires p + 4 <= |s|
  {
    FromU32Le(s[p..p + 4])
  }

  function FixedLength(version: nat): (n: nat)
    ensures LEGACY_FIXED <= n <= EXTENDED_FIXED
  {
    if version / 0x100_0000 in {0x70, 0x71} then LEGACY_FIXED else EXTENDED_FIXED
  }

  /** The bounds every field must respect: behind the fixed part, before the declared end. */
  datatype Bounds = Bounds(fixed: nat, declared: nat)

  predicate Sane(s: Octets, b: Bounds) {
    LEGACY_FIXED <= b.fixed <= |s| && b.fixed <= b.declared <= |s|
  }

  function Slice(s: Octets, b: Bounds, at: nat, offset: nat, n: nat): Result<Octets, Fault>
    requires Sane(s, b)
  {
    if n == 0 then Ok([])
    else if offset + n > b.declared || offset < b.fixed then Err(OutsideMessage(at))
    else Ok(s[offset..offset + n])
  }

  /** A field of UTF-16 units; an empty one may have any offset. */
  function RawField(s: Octets, b: Bounds, at: nat): Result<Octets, Fault>
    requires Sane(s, b) && at + 4 <= b.fixed
  {
    Slice(s, b, at, U16At(s, at), 2 * U16At(s, at + 2))
  }

  predicate HasNul(units: Octets) {
    exists i | 0 <= i < |units| / 2 :: units[2 * i] == 0 && units[2 * i + 1] == 0
  }

  function WithoutNul(units: Octets, at: nat): Result<Octets, Fault> {
    if HasNul(units) then Err(ContainsNul(at)) else Ok(units)
  }

  function TextField(s: Octets, b: Bounds, at: nat): Result<Octets, Fault>
    requires Sane(s, b) && at + 4 <= b.fixed
  {
    var raw :- RawField(s, b, at);
    WithoutNul(raw, at)
  }

  /** Passwords are sent with their nibbles swapped and masked. */
  function Reveal(raw: Octets): (clear: Octets)
    ensures |clear| == |raw|
  {
    seq(|raw|, i requires 0 <= i < |raw| =>
      var masked := (raw[i] as bv8 ^ 0xa5) as nat;
      masked % 16 * 16 + masked / 16)
  }

  function SspiField(s: Octets, b: Bounds): Result<Octets, Fault>
    requires Sane(s, b)
  {
    var short := U16At(s, 80);
    if short == U16_MAX && b.fixed < EXTENDED_FIXED then Err(LegacyLongSspi)
    else Slice(s, b, 78, U16At(s, 78), if short == U16_MAX then U32At(s, 90) else short)
  }

  // ----- Steps in either mode -----

  /** A value, or its fault: noted and replaced by nothing, or final. */
  function Recover(r: Result<Octets, Fault>, tolerant: bool, warnings: seq<Fault>): Step<Octets> {
    match r
    case Ok(value) => Ok((value, warnings))
    case Err(fault) => if tolerant then Ok(([], warnings + [fault])) else Err(fault)
  }

  function Check(good: bool, fault: Fault, tolerant: bool, warnings: seq<Fault>): Result<seq<Fault>, Fault> {
    if good then Ok(warnings) else if tolerant then Ok(warnings + [fault]) else Err(fault)
  }

  /** A password's clear text, absent if the field is empty or its text is bad. */
  function Password(s: Octets, b: Bounds, at: nat, tolerant: bool, warnings: seq<Fault>): Step<Option<Octets>>
    requires Sane(s, b) && at + 4 <= b.fixed
  {
    var (raw, w1) :- Recover(RawField(s, b, at), tolerant, warnings);
    if raw == [] then Ok((None, w1)) else
    match WithoutNul(Reveal(raw), at)
    case Ok(clear) => Ok((Some(clear), w1))
    case Err(fault) => if tolerant then Ok((None, w1 + [fault])) else Err(fault)
  }

  function Counts(s: Octets, limits: seq<(nat, nat)>, tolerant: bool, warnings: seq<Fault>): Result<seq<Fault>, Fault>
    requires forall i | 0 <= i < |limits| :: limits[i].0 + 4 <= |s|
  {
    if limits == [] then Ok(warnings) else
    var (at, most) := limits[0];
    var w :- Check(U16At(s, at + 2) <= most, TooManyCharacters(at), tolerant, warnings);
    Counts(s, limits[1..], tolerant, w)
  }

  const LIMITS: seq<(nat, nat)> :=
    [(36, 128), (40, 128), (44, 128), (48, 128), (52, 128), (60, 128), (64, 128), (68, 128), (82, 260)]

  /** The header's own checks give the bounds for everything else. */
  function Header(s: Octets, tolerant: bool): Step<Bounds> {
    if |s| < 8 then Err(TruncatedHeader) else
    var fixed := FixedLength(U32At(s, 4));
    if |s| < fixed then Err(TruncatedHeader) else
    var field := U32At(s, 0);
    var inside := fixed <= field <= |s|;
    var w1 :- Check(inside, InvalidLength, tolerant, []);
    var w2 :- Check(field == |s|, LengthDiffers, tolerant, w1);
    var w3 :- Check(|s| <= MAX_LENGTH, TooLong, tolerant, w2);
    var w4 :- Counts(s, LIMITS + if fixed >= EXTENDED_FIXED then [(86, 128)] else [], tolerant, w3);
    Ok((Bounds(fixed, if inside then field else |s|), w4))
  }

  // ----- Features -----

  datatype Feature = Feature(id: byte, data: Octets, good: bool)

  /** The features walked, and what is left if the walk broke off. */
  datatype Features = Features(list: seq<Feature>, remainder: Option<Octets>)

  const NO_FEATURES := Features([], None)

  function BreakOff(list: seq<Feature>, rest: Octets, fault: Fault, tolerant: bool, warnings: seq<Fault>): Step<Features> {
    if tolerant then Ok((Features(list, Some(rest)), warnings + [fault])) else Err(fault)
  }

  function Walk(
    s: Octets, p: nat, end: nat, list: seq<Feature>, valid: Validity, tolerant: bool, warnings: seq<Fault>
  ): Step<Features>
    requires p <= end <= |s|
    decreases end - p
  {
    if p == end then BreakOff(list, [], NoTerminator, tolerant, warnings)
    else if s[p] == 0xff then Ok((Features(list, None), warnings))
    else if p + 5 > end then BreakOff(list, s[p..end], TruncatedFeatureLength, tolerant, warnings)
    else
      var next := p + 5 + U32At(s, p + 1);
      if next > end then BreakOff(list, s[p..end], TruncatedFeatureData, tolerant, warnings)
      else
        var data := s[p + 5..next];
        var w :- Check(valid(s[p], data), BadFeature(s[p]), tolerant, warnings);
        if |list| + 1 > MAX_FEATURES then Err(FeatureLimit)
        else Walk(s, next, end, list + [Feature(s[p], data, valid(s[p], data))], valid, tolerant, w)
  }

  /** Where the feature walk starts, if the flags announce one and the pointer to it is good. */
  function Extension(s: Octets, b: Bounds): Result<Option<nat>, Fault>
    requires Sane(s, b)
  {
    if !Bit(s[27], 0x10) || b.fixed < EXTENDED_FIXED then Ok(None) else
    var pointer :- Slice(s, b, 56, U16At(s, 56), U16At(s, 58));
    if |pointer| != 4 then Err(ExtensionPointer)
    else if !(b.fixed <= U32At(pointer, 0) < b.declared) then Err(FeaturesOutside)
    else Ok(Some(U32At(pointer, 0)))
  }

  function ReadFeatures(s: Octets, b: Bounds, valid: Validity, tolerant: bool, warnings: seq<Fault>): Step<Features>
    requires Sane(s, b)
  {
    match Extension(s, b)
    case Ok(None) => Ok((NO_FEATURES, warnings))
    case Ok(Some(start)) => Walk(s, start, b.declared, [], valid, tolerant, warnings)
    case Err(fault) => if tolerant then Ok((NO_FEATURES, warnings + [fault])) else Err(fault)
  }

  // ----- The whole message -----

  datatype Credentials = Credentials(
    username: Octets, password: Option<Octets>, sspi: Octets, newPassword: Option<Octets>)

  function ReadCredentials(s: Octets, b: Bounds, tolerant: bool, warnings: seq<Fault>): Step<Credentials>
    requires Sane(s, b)
  {
    var (username, w1) :- Recover(TextField(s, b, 40), tolerant, warnings);
    var (password, w2) :- Password(s, b, 44, tolerant, w1);
    var (sspi, w3) :- Recover(SspiField(s, b), tolerant, w2);
    var (newPassword, w4) :-
      if b.fixed >= EXTENDED_FIXED then Password(s, b, 86, tolerant, w3) else Ok((None, w3));
    Ok((Credentials(username, password, sspi, newPassword), w4))
  }

  datatype Names = Names(
    hostname: Octets, application: Octets, server: Octets, library: Octets, language: Octets, database: Octets,
    attachFile: Octets)

  function ReadTexts(s: Octets, b: Bounds, fields: seq<nat>, tolerant: bool, warnings: seq<Fault>):
    (r: Step<seq<Octets>>)
    requires Sane(s, b) && forall i | 0 <= i < |fields| :: fields[i] + 4 <= b.fixed
    ensures r.Ok? ==> |r.value.0| == |fields|
  {
    if fields == [] then Ok(([], warnings)) else
    var (first, w1) :- Recover(TextField(s, b, fields[0]), tolerant, warnings);
    var (rest, w2) :- ReadTexts(s, b, fields[1..], tolerant, w1);
    Ok(([first] + rest, w2))
  }

  const NAME_FIELDS: seq<nat> := [36, 48, 52, 60, 64, 68, 82]

  function ReadNames(s: Octets, b: Bounds, tolerant: bool, warnings: seq<Fault>): Step<Names>
    requires Sane(s, b)
  {
    var (texts, w) :- ReadTexts(s, b, NAME_FIELDS, tolerant, warnings);
    Ok((Names(texts[0], texts[1], texts[2], texts[3], texts[4], texts[5], texts[6]), w))
  }

  datatype Login = Login(credentials: Credentials, features: Features, names: Names, warnings: seq<Fault>)

  function Parse(s: Octets, valid: Validity, tolerant: bool): Result<Login, Fault> {
    var (b, w1) :- Header(s, tolerant);
    HeaderIsSane(s, tolerant);
    var (credentials, w2) :- ReadCredentials(s, b, tolerant, w1);
    var (features, w3) :- ReadFeatures(s, b, valid, tolerant, w2);
    var (names, w4) :- ReadNames(s, b, tolerant, w3);
    Ok(Login(credentials, features, names, w4))
  }

  lemma HeaderIsSane(s: Octets, tolerant: bool)
    ensures Header(s, tolerant).Ok? ==> Sane(s, Header(s, tolerant).value.0)
  {
    hide Counts;
  }

  method WalkFeatures(s: Octets, start: nat, end: nat, valid: Validity, tolerant: bool, before: seq<Fault>)
    returns (r: Step<Features>)
    requires start <= end <= |s|
    ensures r == Walk(s, start, end, [], valid, tolerant, before)
  {
    var position, list: seq<Feature>, warnings := start, [], before;
    while true
      invariant start <= position <= end
      invariant Walk(s, position, end, list, valid, tolerant, warnings) == Walk(s, start, end, [], valid, tolerant, before)
      decreases end - position
    {
      if position == end {
        return BreakOff(list, [], NoTerminator, tolerant, warnings);
      }
      var id := s[position];
      if id == 0xff {
        return Ok((Features(list, None), warnings));
      }
      if position + 5 > end {
        return BreakOff(list, s[position..end], TruncatedFeatureLength, tolerant, warnings);
      }
      var next := position + 5 + U32At(s, position + 1);
      if next > end {
        return BreakOff(list, s[position..end], TruncatedFeatureData, tolerant, warnings);
      }
      var data := s[position + 5..next];
      var good := valid(id, data);
      if !good {
        if !tolerant {
          return Err(BadFeature(id));
        }
        warnings := warnings + [BadFeature(id)];
      }
      list := list + [Feature(id, data, good)];
      if |list| > MAX_FEATURES {
        return Err(FeatureLimit);
      }
      position := next;
    }
  }
}
