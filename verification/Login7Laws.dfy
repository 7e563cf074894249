/** The tolerant LOGIN7 mode extends the strict one, and the feature walk loses nothing. */
module Login7Laws {
  import opened Bytes
  import opened Login7

  // ----- The strict mode is the tolerant one stopped at its first warning -----

  /** The faults that end parsing in either mode. */
  predicate Fatal(fault: Fault) {
    fault == TruncatedHeader || fault == FeatureLimit
  }

  /**
   From warnings `w`: where tolerant succeeds it adds to them, and strict has the
   same result if nothing was added and fails with the first addition otherwise;
   where tolerant fails, both do.
   */
  predicate Agree<T(==)>(strict: Step<T>, tolerant: Step<T>, w: seq<Fault>) {
    match tolerant
    case Ok((_, noted)) => w <= noted && strict == (if noted == w then tolerant else Err(noted[|w|]))
    case Err(fault) => Fatal(fault) && strict.Err?
  }

  predicate AgreeW(strict: Result<seq<Fault>, Fault>, tolerant: Result<seq<Fault>, Fault>, w: seq<Fault>) {
    && tolerant.Ok? && w <= tolerant.value
    && strict == (if tolerant.value == w then tolerant else Err(tolerant.value[|w|]))
  }

  lemma RecoverAgrees(r: Result<Octets, Fault>, w: seq<Fault>)
    ensures Recover(r, true, w).Ok? && Agree(Recover(r, false, w), Recover(r, true, w), w)
  {
  }

  lemma CheckAgrees(good: bool, fault: Fault, w: seq<Fault>)
    ensures AgreeW(Check(good, fault, false, w), Check(good, fault, true, w), w)
  {
  }

  lemma {:induction false} CountsAgree(s: Octets, limits: seq<(nat, nat)>, w: seq<Fault>)
    requires forall i | 0 <= i < |limits| :: limits[i].0 + 4 <= |s|
    ensures AgreeW(Counts(s, limits, false, w), Counts(s, limits, true, w), w)
    decreases |limits|
  {
    hide U16At;
    if limits != [] {
      var (at, most) := limits[0];
      var good := U16At(s, at + 2) <= most;
      CheckAgrees(good, TooManyCharacters(at), w);
      CountsAgree(s, limits[1..], Check(good, TooManyCharacters(at), true, w).value);
    }
  }

  lemma PasswordAgrees(s: Octets, b: Bounds, at: nat, w: seq<Fault>)
    requires Sane(s, b) && at + 4 <= b.fixed
    ensures Password(s, b, at, true, w).Ok?
    ensures Agree(Password(s, b, at, false, w), Password(s, b, at, true, w), w)
  {
    hide RawField, Reveal, WithoutNul;
  }

  lemma HeaderAgrees(s: Octets)
    ensures Agree(Header(s, false), Header(s, true), [])
  {
    hide Counts, U32At, FixedLength;
    if |s| >= 8 && |s| >= FixedLength(U32At(s, 4)) {
      var fixed, field := FixedLength(U32At(s, 4)), U32At(s, 0);
      var limits := LIMITS + if fixed >= EXTENDED_FIXED then [(86, 128)] else [];
      var t1 := Check(fixed <= field <= |s|, InvalidLength, true, []).value;
      var t2 := Check(field == |s|, LengthDiffers, true, t1).value;
      var t3 := Check(|s| <= MAX_LENGTH, TooLong, true, t2).value;
      CountsAgree(s, limits, t3);
    }
  }

  lemma {:induction false} WalkAgrees(
    s: Octets, p: nat, end: nat, list: seq<Feature>, valid: Validity, w: seq<Fault>)
    requires p <= end <= |s|
    ensures Agree(Walk(s, p, end, list, valid, false, w), Walk(s, p, end, list, valid, true, w), w)
    decreases end - p
  {
    hide U32At;
    if p + 5 <= end && s[p] != 0xff && p + 5 + U32At(s, p + 1) <= end && |list| + 1 <= MAX_FEATURES {
      var next := p + 5 + U32At(s, p + 1);
      var data := s[p + 5..next];
      var longer := list + [Feature(s[p], data, valid(s[p], data))];
      WalkAgrees(s, next, end, longer, valid, if valid(s[p], data) then w else w + [BadFeature(s[p])]);
    }
  }

  lemma FeaturesAgree(s: Octets, b: Bounds, valid: Validity, w: seq<Fault>)
    requires Sane(s, b)
    ensures Agree(ReadFeatures(s, b, valid, false, w), ReadFeatures(s, b, valid, true, w), w)
  {
    hide Extension, Walk;
    match Extension(s, b)
    case Ok(None) =>
    case Ok(Some(start)) =>
      ExtensionInside(s, b);
      WalkAgrees(s, start, b.declared, [], valid, w);
    case Err(_) =>
  }

  lemma ExtensionInside(s: Octets, b: Bounds)
    requires Sane(s, b)
    ensures Extension(s, b).Ok? && Extension(s, b).value.Some? ==> Extension(s, b).value.value < b.declared
  {
  }

  lemma CredentialsAgree(s: Octets, b: Bounds, w: seq<Fault>)
    requires Sane(s, b)
    ensures Agree(ReadCredentials(s, b, false, w), ReadCredentials(s, b, true, w), w)
  {
    hide Recover, TextField, SspiField, Password;
    RecoverAgrees(TextField(s, b, 40), w);
    var w1 := Recover(TextField(s, b, 40), true, w).value.1;
    PasswordAgrees(s, b, 44, w1);
    var w2 := Password(s, b, 44, true, w1).value.1;
    RecoverAgrees(SspiField(s, b), w2);
    if b.fixed >= EXTENDED_FIXED {
      PasswordAgrees(s, b, 86, Recover(SspiField(s, b), true, w2).value.1);
    }
  }

  lemma {:induction false} TextsAgree(s: Octets, b: Bounds, fields: seq<nat>, w: seq<Fault>)
    requires Sane(s, b) && forall i | 0 <= i < |fields| :: fields[i] + 4 <= b.fixed
    ensures Agree(ReadTexts(s, b, fields, false, w), ReadTexts(s, b, fields, true, w), w)
    decreases |fields|
  {
    hide Recover, TextField;
    if fields != [] {
      RecoverAgrees(TextField(s, b, fields[0]), w);
      TextsAgree(s, b, fields[1..], Recover(TextField(s, b, fields[0]), true, w).value.1);
    }
  }

  lemma NamesAgree(s: Octets, b: Bounds, w: seq<Fault>)
    requires Sane(s, b)
    ensures Agree(ReadNames(s, b, false, w), ReadNames(s, b, true, w), w)
  {
    hide ReadTexts;
    TextsAgree(s, b, NAME_FIELDS, w);
  }

  /**
   The tolerant mode is a conservative extension. The strict parse yields `r`
   exactly when the tolerant parse yields the same `r` without a warning; where
   tolerant warns, strict fails with its first warning; and tolerant fails only
   on a truncated header or too many features, where strict fails too.
   */
  lemma ConservativeExtension(s: Octets, valid: Validity)
    ensures
      match Parse(s, valid, true)
      case Ok(r) => Parse(s, valid, false) == (if r.warnings == [] then Ok(r) else Err(r.warnings[0]))
      case Err(fault) => Fatal(fault) && Parse(s, valid, false).Err?
  {
    hide Header, ReadCredentials, ReadFeatures, ReadNames;
    HeaderAgrees(s);
    HeaderIsSane(s, true);
    HeaderIsSane(s, false);
    if Header(s, true).Ok? {
      var (b, w1) := Header(s, true).value;
      CredentialsAgree(s, b, w1);
      if ReadCredentials(s, b, true, w1).Ok? {
        var w2 := ReadCredentials(s, b, true, w1).value.1;
        FeaturesAgree(s, b, valid, w2);
        if ReadFeatures(s, b, valid, true, w2).Ok? {
          NamesAgree(s, b, ReadFeatures(s, b, valid, true, w2).value.1);
        }
      }
    }
  }

  // ----- The walk is lossless -----

  function Reencode(list: seq<Feature>): Octets {
    if list == [] then []
    else Reencode(list[..|list| - 1]) + Again(list[|list| - 1])
  }

  function Again(feature: Feature): Octets {
    [feature.id] + U32Le(Min(|feature.data|, U32_MAX)) + feature.data
  }

  function Rest(features: Features): Octets {
    if features.remainder.Some? then features.remainder.value else [0xff]
  }

  lemma OneFeature(s: Octets, p: nat, next: nat, good: bool)
    requires p + 5 <= next <= |s| && next == p + 5 + U32At(s, p + 1)
    ensures Again(Feature(s[p], s[p + 5..next], good)) == s[p..next]
  {
    FromToU32(s[p + 1..p + 5]);
    assert s[p..next] == [s[p]] + s[p + 1..p + 5] + s[p + 5..next];
  }

  lemma {:induction false} WalkLossless(
    s: Octets, start: nat, p: nat, end: nat, list: seq<Feature>, valid: Validity, tolerant: bool, w: seq<Fault>)
    requires start <= p <= end <= |s| && Reencode(list) == s[start..p]
    requires Walk(s, p, end, list, valid, tolerant, w).Ok?
    ensures
      var features := Walk(s, p, end, list, valid, tolerant, w).value.0;
      var stop := start + |Reencode(features.list) + Rest(features)|;
      && start <= stop <= end && (features.remainder.Some? ==> stop == end)
      && Reencode(features.list) + Rest(features) == s[start..stop]
    decreases end - p
  {
    hide U32At, Reencode;
    if p == end {
      assert s[start..p] + [] == s[start..end];
    } else if s[p] == 0xff {
      assert s[start..p] + [0xff] == s[start..p + 1];
    } else if p + 5 > end || p + 5 + U32At(s, p + 1) > end {
      assert s[start..p] + s[p..end] == s[start..end];
    } else {
      var next := p + 5 + U32At(s, p + 1);
      var data := s[p + 5..next];
      var feature := Feature(s[p], data, valid(s[p], data));
      var more := if feature.good then w else w + [BadFeature(s[p])];
      OneMore(s, start, p, next, list, feature.good);
      WalkLossless(s, start, next, end, list + [feature], valid, tolerant, more);
    }
  }

  lemma OneMore(s: Octets, start: nat, p: nat, next: nat, list: seq<Feature>, good: bool)
    requires start <= p && p + 5 <= next <= |s| && next == p + 5 + U32At(s, p + 1)
    requires Reencode(list) == s[start..p]
    ensures Reencode(list + [Feature(s[p], s[p + 5..next], good)]) == s[start..next]
  {
    hide Again, U32At, Reencode;
    OneFeature(s, p, next, good);
    ReencodeSnoc(list, Feature(s[p], s[p + 5..next], good));
    SlicesJoin(s, start, p, next);
  }

  lemma ReencodeSnoc(list: seq<Feature>, feature: Feature)
    ensures Reencode(list + [feature]) == Reencode(list) + Again(feature)
  {
    hide Again;
    var longer := list + [feature];
    assert longer[..|longer| - 1] == list && longer[|longer| - 1] == feature;
  }

  lemma SlicesJoin(s: Octets, a: nat, b: nat, c: nat)
    requires a <= b <= c <= |s|
    ensures s[a..b] + s[b..c] == s[a..c]
  {
  }

  /**
   Whenever the features are walked, writing the parsed ones out again, followed
   by the terminator or the kept remainder, gives back the walked bytes; a
   remainder reaches to the end of the message.
   */
  lemma FeaturesLossless(s: Octets, b: Bounds, valid: Validity, tolerant: bool, w: seq<Fault>)
    requires Sane(s, b) && Extension(s, b).Ok? && Extension(s, b).value.Some?
    requires ReadFeatures(s, b, valid, tolerant, w).Ok?
    ensures
      var start, features := Extension(s, b).value.value, ReadFeatures(s, b, valid, tolerant, w).value.0;
      var stop := start + |Reencode(features.list) + Rest(features)|;
      && start <= stop <= b.declared && (features.remainder.Some? ==> stop == b.declared)
      && Reencode(features.list) + Rest(features) == s[start..stop]
  {
    hide Extension, Walk;
    ExtensionInside(s, b);
    var start := Extension(s, b).value.value;
    assert Reencode([]) == s[start..start];
    WalkLossless(s, start, start, b.declared, [], valid, tolerant, w);
  }
}
