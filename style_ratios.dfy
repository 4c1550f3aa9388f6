/**
 * The dashboard's style-ratio normalisation: three integer percentages
 * (photo, illustration, video) and the one the user just changed are turned
 * into a triple that sums to exactly 100.
 */
module StyleRatios {
  import opened JsMath

  /** The field the user just edited. */
  datatype Field = Photo | Illust | Video

  /** The `{ photo, illust, video }` record. */
  datatype Ratios = Ratios(photo: int, illust: int, video: int) {

    function Total(): int {
      photo + illust + video
    }

    function Get(f: Field): int {
      match f
      case Photo => photo
      case Illust => illust
      case Video => video
    }
  }

  /** The media profile the dashboard starts from (70 / 20 / 10). */
  const DefaultRatios := Ratios(70, 20, 10)

  /** The fixed priority of the two untouched fields: the first is scaled
      and rounded, the second absorbs the remainder. */
  function Priority(changed: Field): (roles: (Field, Field))
    ensures roles.0 != changed && roles.1 != changed && roles.0 != roles.1
    ensures changed == Video ==> roles == (Photo, Illust)
    ensures changed != Video ==> roles.1 == Video
    ensures roles.0 == Photo <==> changed != Photo
  {
    match changed
    case Photo => (Illust, Video)
    case Illust => (Photo, Video)
    case Video => (Photo, Illust)
  }

  /** Sum of the two fields the user did not touch. */
  function OtherSum(r: Ratios, changed: Field): int {
    var (rounded, absorbing) := Priority(changed);
    r.Get(rounded) + r.Get(absorbing)
  }

  /** The `|| 1` guard: a zero divisor is replaced by 1. */
  function Divisor(s: int): (d: int)
    ensures d != 0
    ensures s != 0 ==> d == s
  {
    if s == 0 then 1 else s
  }

  /** What the helper promises: `out` sums to 100; the changed field keeps
      its value; a triple already summing to 100 is returned as it is;
      otherwise the first untouched field (in priority order) is
      `Math.round(x * (100 - changed) / otherSum)` and the second absorbs
      what is left. */
  ghost predicate IsNormalization(input: Ratios, changed: Field, out: Ratios) {
    && out.Total() == 100
    && out.Get(changed) == input.Get(changed)
    && (input.Total() == 100 ==> out == input)
    && (input.Total() != 100 ==>
          var rounded := Priority(changed).0;
          NearestHalfUp(out.Get(rounded),
                        input.Get(rounded) * (100 - input.Get(changed)),
                        Divisor(OtherSum(input, changed))))
  }

  /** `normalizeStyleRatios(p, i, v, changed)`, step by step. */
  method NormalizeStyleRatios(p: int, i: int, v: int, changed: Field) returns (r: Ratios)
    ensures IsNormalization(Ratios(p, i, v), changed, r)
  {
    var photo, illust, video := p, i, v;
    var total := photo + illust + video;
    if total == 100 {
      return Ratios(photo, illust, video);
    }
    var remaining := 100 - (match changed
                            case Photo => photo
                            case Illust => illust
                            case Video => video);
    var otherSum := match changed
                    case Photo => illust + video
                    case Illust => photo + video
                    case Video => photo + illust;
    if otherSum == 0 {
      otherSum := 1;
    }
    if changed == Photo {
      illust := Round(illust * remaining, otherSum);
      video := 100 - photo - illust;
    } else if changed == Illust {
      photo := Round(photo * remaining, otherSum);
      video := 100 - illust - photo;
    } else {
      photo := Round(photo * remaining, otherSum);
      illust := 100 - video - photo;
    }
    r := Ratios(photo, illust, video);
  }

  /** The contract determines the result: there is one normalisation of a
      triple for a given changed field. */
  lemma NormalizationUnique(input: Ratios, changed: Field, a: Ratios, b: Ratios)
    requires IsNormalization(input, changed, a) && IsNormalization(input, changed, b)
    ensures a == b
  {
    if input.Total() != 100 {
      var rounded := Priority(changed).0;
      NearestHalfUpUnique(a.Get(rounded), b.Get(rounded),
                          input.Get(rounded) * (100 - input.Get(changed)),
                          Divisor(OtherSum(input, changed)));
    }
  }

  /** The three branches with their fixed priority, written out: photo
      changed rounds illust and video absorbs; illust changed rounds photo
      and video absorbs; video changed rounds photo and illust absorbs. */
  lemma PriorityBranches(input: Ratios, changed: Field, out: Ratios)
    requires input.Total() != 100 && IsNormalization(input, changed, out)
    ensures changed == Photo ==>
      && out.photo == input.photo
      && out.illust == Round(input.illust * (100 - input.photo), Divisor(input.illust + input.video))
      && out.video == 100 - out.photo - out.illust
    ensures changed == Illust ==>
      && out.illust == input.illust
      && out.photo == Round(input.photo * (100 - input.illust), Divisor(input.photo + input.video))
      && out.video == 100 - out.illust - out.photo
    ensures changed == Video ==>
      && out.video == input.video
      && out.photo == Round(input.photo * (100 - input.video), Divisor(input.photo + input.illust))
      && out.illust == 100 - out.video - out.photo
  {
    var rounded := Priority(changed).0;
    RoundIsNearestHalfUp(out.Get(rounded),
                         input.Get(rounded) * (100 - input.Get(changed)),
                         Divisor(OtherSum(input, changed)));
  }

  /** A triple that already sums to 100 is its own normalisation whatever
      field is named, and by uniqueness the only one. */
  lemma NoOpWhenTotalIs100(input: Ratios, changed: Field, out: Ratios)
    requires input.Total() == 100
    ensures IsNormalization(input, changed, input)
    ensures IsNormalization(input, changed, out) <==> out == input
  {
  }

  /** Normalising a result again, with the same or any other field named,
      gives it back unchanged. */
  lemma NormalizationIdempotent(input: Ratios, changed: Field, again: Field, out: Ratios, out2: Ratios)
    requires IsNormalization(input, changed, out)
    requires IsNormalization(out, again, out2)
    ensures out2 == out
  {
  }

  /** Both untouched fields zero: the divisor becomes 1, the rounded field
      becomes 0 and the absorbing field receives `100 - changed`. */
  lemma ZeroOthersGuard(input: Ratios, changed: Field, out: Ratios)
    requires input.Total() != 100 && IsNormalization(input, changed, out)
    requires input.Get(Priority(changed).0) == 0 && input.Get(Priority(changed).1) == 0
    ensures Divisor(OtherSum(input, changed)) == 1
    ensures out.Get(Priority(changed).0) == 0
    ensures out.Get(Priority(changed).1) == 100 - input.Get(changed)
  {
    var rounded := Priority(changed).0;
    assert Divisor(OtherSum(input, changed)) == 1;
    assert input.Get(rounded) * (100 - input.Get(changed)) == 0;
    NearestHalfUpUnique(out.Get(rounded), 0, 0, 1);
  }

  /** With non-negative inputs and a changed value of at most 100, every
      field of the result is a percentage in [0, 100], with no clamping. */
  lemma NormalizationBounds(input: Ratios, changed: Field, out: Ratios)
    requires input.photo >= 0 && input.illust >= 0 && input.video >= 0
    requires input.Get(changed) <= 100
    requires IsNormalization(input, changed, out)
    ensures 0 <= out.photo <= 100 && 0 <= out.illust <= 100 && 0 <= out.video <= 100
  {
    if input.Total() != 100 {
      var (rounded, absorbing) := Priority(changed);
      var s := OtherSum(input, changed);
      var r := 100 - input.Get(changed);
      if s == 0 {
        ZeroOthersGuard(input, changed, out);
      } else {
        RoundShareBounds(out.Get(rounded), input.Get(rounded), r, s);
      }
    }
  }

  /** A changed value above 100 is passed through unclamped, and the two
      other fields then share a negative remainder. */
  lemma OverfullPassesThrough(input: Ratios, changed: Field, out: Ratios)
    requires input.Get(changed) > 100 && IsNormalization(input, changed, out)
    ensures out.Get(changed) > 100
    ensures out.Get(Priority(changed).0) < 0 || out.Get(Priority(changed).1) < 0
  {
  }

  /** 70 / 20 / 10 already sums to 100, so every normalisation returns it
      unchanged. */
  lemma DefaultIsNormalized(changed: Field)
    ensures IsNormalization(DefaultRatios, changed, DefaultRatios)
  {
  }

  /** 50 / 20 / 10 with photo changed: 50 remains, illust is
      `Math.round(20 * 50 / 30) == 33` and video absorbs 17. */
  lemma ExampleRescale(out: Ratios)
    requires IsNormalization(Ratios(50, 20, 10), Photo, out)
    ensures out == Ratios(50, 33, 17)
  {
    assert NearestHalfUp(33, 20 * 50, 30);
    NormalizationUnique(Ratios(50, 20, 10), Photo, out, Ratios(50, 33, 17));
  }

  /** 60 / 0 / 0 with photo changed goes through the `|| 1` guard: illust
      stays 0 and video receives the whole remaining 40. */
  lemma ExampleZeroGuard(out: Ratios)
    requires IsNormalization(Ratios(60, 0, 0), Photo, out)
    ensures out == Ratios(60, 0, 40)
  {
    ZeroOthersGuard(Ratios(60, 0, 0), Photo, out);
  }
}
