/** Raw model scores, their smoothing, and the alert level they give. */
module Scores {
  import opened Collections

  // ---------------------------------------------------------------- the smoothed score of a history

  const ALPHA := 0.35

  function Step(previous: Option<real>, raw: real): real {
    if previous.None? then raw else ALPHA * raw + (1.0 - ALPHA) * previous.value
  }

  /** The score after some raw scores, given the score before them. */
  function Smoothed(previous: Option<real>, raws: seq<real>): Option<real> {
    if raws == [] then previous
    else Some(Step(Smoothed(previous, raws[..|raws| - 1]), raws[|raws| - 1]))
  }

  lemma SmoothedOnce(previous: Option<real>, raws: seq<real>, raw: real)
    ensures Smoothed(previous, raws + [raw]) == Some(Step(Smoothed(previous, raws), raw))
  {
    assert (raws + [raw])[..|raws|] == raws;
  }

  predicate Between(lo: real, score: Option<real>, hi: real) {
    score.Some? ==> lo <= score.value <= hi
  }

  lemma {:induction false} SmoothedStaysBetween(previous: Option<real>, raws: seq<real>, lo: real, hi: real)
    requires Between(lo, previous, hi) && forall i :: 0 <= i < |raws| ==> lo <= raws[i] <= hi
    ensures Between(lo, Smoothed(previous, raws), hi)
  {
    if raws != [] {
      SmoothedStaysBetween(previous, raws[..|raws| - 1], lo, hi);
    }
  }

  /** Pointwise larger raw scores never give a smaller score. */
  lemma {:induction false} SmoothedIsMonotone(p: Option<real>, q: Option<real>, low: seq<real>, high: seq<real>)
    requires p.Some? == q.Some? && (p.Some? ==> p.value <= q.value)
    requires |low| == |high| && forall i :: 0 <= i < |low| ==> low[i] <= high[i]
    ensures Smoothed(p, low).Some? == Smoothed(q, high).Some?
    ensures Smoothed(p, low).Some? ==> Smoothed(p, low).value <= Smoothed(q, high).value
  {
    if low != [] {
      SmoothedIsMonotone(p, q, low[..|low| - 1], high[..|high| - 1]);
    }
  }

  function Repeat(c: real, n: nat): seq<real> {
    seq(n, _ => c)
  }

  /** (13/20)^n times a distance. */
  function Shrunk(distance: real, n: nat): real {
    if n == 0 then distance else (13.0 / 20.0) * Shrunk(distance, n - 1)
  }

  /** The distance to a constant input shrinks by 13/20 with every score. */
  lemma {:induction false} SmoothedTowards(start: real, c: real, n: nat)
    ensures Smoothed(Some(start), Repeat(c, n)).Some?
    ensures Smoothed(Some(start), Repeat(c, n)).value - c == Shrunk(start - c, n)
  {
    if n == 0 {
      assert Repeat(c, n) == [];
    } else {
      SmoothedTowards(start, c, n - 1);
      SmoothedOnce(Some(start), Repeat(c, n - 1), c);
      assert Repeat(c, n) == Repeat(c, n - 1) + [c];
    }
  }

  lemma {:induction false} ShrunkIsMonotone(d: real, e: real, n: nat)
    requires d <= e
    ensures Shrunk(d, n) <= Shrunk(e, n) && Shrunk(-d, n) == -Shrunk(d, n)
    ensures 0.0 <= d ==> 0.0 <= Shrunk(d, n)
  {
    if n > 0 {
      ShrunkIsMonotone(d, e, n - 1);
    }
  }

  lemma {:induction false} ShrunkShrinks(m: nat, n: nat)
    requires m <= n
    ensures 0.0 < Shrunk(1.0, n) <= Shrunk(1.0, m) <= 1.0
  {
    if n > 0 {
      ShrunkShrinks(if m == n then m - 1 else m, n - 1);
    }
  }

  // ---------------------------------------------------------------- alert levels

  datatype AlertLevel = Normal | Warning | Alert

  const WARNING_THRESHOLD := 0.5
  const ALERT_THRESHOLD := 0.65

  function Classify(score: real, warning: real, alert: real): AlertLevel {
    if score >= alert then Alert else if score >= warning then Warning else Normal
  }

  /** Which level a score has: the alert threshold is asked first, and a score on a threshold is over it. */
  lemma ClassifyMeans(score: real, warning: real, alert: real)
    ensures Classify(score, warning, alert) == Alert <==> alert <= score
    ensures Classify(score, warning, alert) == Warning <==> warning <= score < alert
    ensures Classify(score, warning, alert) == Normal <==> score < warning && score < alert
    ensures Classify(score, WARNING_THRESHOLD, ALERT_THRESHOLD) ==
      if 0.65 <= score then Alert else if 0.5 <= score then Warning else Normal
  {
  }

  function Rank(level: AlertLevel): nat {
    match level
    case Normal => 0
    case Warning => 1
    case Alert => 2
  }

  /** Pointwise larger raw scores never give a lower alert level, whatever the thresholds are. */
  lemma AlertLevelIsMonotone(low: seq<real>, high: seq<real>, warning: real, alert: real)
    requires |low| == |high| && low != [] && forall i :: 0 <= i < |low| ==> low[i] <= high[i]
    ensures Smoothed(None, low).Some? && Smoothed(None, high).Some?
    ensures Rank(Classify(Smoothed(None, low).value, warning, alert))
      <= Rank(Classify(Smoothed(None, high).value, warning, alert))
  {
    SmoothedIsMonotone(None, None, low, high);
  }

  function LevelAfter(start: real, raws: seq<real>): AlertLevel
  {
    var score := Smoothed(Some(start), raws);
    if score.None? then Normal else Classify(score.value, WARNING_THRESHOLD, ALERT_THRESHOLD)
  }

  ghost predicate ForcesFromAnywhere(raw: real, n: nat, level: AlertLevel) {
    forall start :: 0.0 <= start <= 1.0 ==> LevelAfter(start, Repeat(raw, n)) == level
  }

  /** At the default thresholds it takes exactly three scores of 1 to raise the alert from any
      state, and exactly two scores of 0 to end it. */
  lemma OnesForceAlertIff(n: nat)
    ensures ForcesFromAnywhere(1.0, n, Alert) <==> 3 <= n
  {
    ShrunkShrinks(if n < 3 then n else 3, if n < 3 then 2 else n);
    assert Shrunk(1.0, 2) == 169.0 / 400.0;
    assert Shrunk(1.0, 3) == (13.0 / 20.0) * Shrunk(1.0, 2);
    if 3 <= n {
      forall start | 0.0 <= start <= 1.0 ensures LevelAfter(start, Repeat(1.0, n)) == Alert {
        SmoothedTowards(start, 1.0, n);
        ShrunkIsMonotone(1.0 - start, 1.0, n);
      }
    } else {
      SmoothedTowards(0.0, 1.0, n);
      ShrunkIsMonotone(1.0, 1.0, n);
      assert LevelAfter(0.0, Repeat(1.0, n)) != Alert;
    }
  }

  lemma ZerosForceNormalIff(n: nat)
    ensures ForcesFromAnywhere(0.0, n, Normal) <==> 2 <= n
  {
    ShrunkShrinks(if n < 2 then n else 2, if n < 2 then 1 else n);
    assert Shrunk(1.0, 2) == (13.0 / 20.0) * Shrunk(1.0, 1);
    if 2 <= n {
      forall start | 0.0 <= start <= 1.0 ensures LevelAfter(start, Repeat(0.0, n)) == Normal {
        SmoothedTowards(start, 0.0, n);
        ShrunkIsMonotone(start, 1.0, n);
      }
    } else {
      SmoothedTowards(1.0, 0.0, n);
      assert LevelAfter(1.0, Repeat(0.0, n)) != Normal;
    }
  }

  // ---------------------------------------------------------------- one score per track

  function Key(camera: string, id: string, model: string): string {
    camera + ":" + id + ":" + model
  }

  predicate ColonFree(s: string) {
    ':' !in s
  }

  function UpToColon(s: string): string {
    if s == [] || s[0] == ':' then [] else [s[0]] + UpToColon(s[1..])
  }

  lemma {:induction false} ColonEndsIt(a: string, rest: string)
    requires ColonFree(a)
    ensures UpToColon(a + ":" + rest) == a
  {
    if a != [] {
      ColonEndsIt(a[1..], rest);
      assert (a + ":" + rest)[1..] == a[1..] + ":" + rest;
    }
  }

  lemma SplitAtColon(a: string, b: string, rest: string, other: string)
    requires ColonFree(a) && ColonFree(b) && a + ":" + rest == b + ":" + other
    ensures a == b && rest == other
  {
    ColonEndsIt(a, rest);
    ColonEndsIt(b, other);
    assert rest == (a + ":" + rest)[|a| + 1..] && other == (b + ":" + other)[|b| + 1..];
  }

  /** Ids without a colon never share a key; the model name may be anything. */
  lemma KeysDoNotCollide(camera: string, id: string, model: string, camera': string, id': string, model': string)
    requires ColonFree(camera) && ColonFree(id) && ColonFree(camera') && ColonFree(id')
    requires Key(camera, id, model) == Key(camera', id', model')
    ensures camera == camera' && id == id' && model == model'
  {
    assert Key(camera, id, model) == camera + ":" + (id + ":" + model);
    assert Key(camera', id', model') == camera' + ":" + (id' + ":" + model');
    SplitAtColon(camera, camera', id + ":" + model, id' + ":" + model');
    SplitAtColon(id, id', model, model');
  }

  function Colons(s: string): nat {
    multiset(s)[':']
  }

  lemma KeyColons(camera: string, id: string, model: string)
    ensures Colons(Key(camera, id, model)) == Colons(camera) + Colons(id) + Colons(model) + 2
  {
  }

  lemma ColonFreeIff(s: string)
    ensures ColonFree(s) <==> Colons(s) == 0
  {
  }

  /** Another track with the same key. */
  ghost predicate SharesKey(camera: string, id: string, model: string, camera': string, id': string, model': string) {
    Key(camera', id', model') == Key(camera, id, model) && !(camera' == camera && id' == id && model' == model)
  }

  /** A text with a colon is two texts around one. */
  lemma AtAColon(s: string) returns (before: string, after: string)
    requires !ColonFree(s)
    ensures s == before + ":" + after
  {
    var k :| 0 <= k < |s| && s[k] == ':';
    before, after := s[..k], s[k + 1..];
  }

  /** The same, with the last colon. */
  lemma {:induction false} AtTheLastColon(s: string) returns (before: string, after: string)
    requires !ColonFree(s)
    ensures s == before + ":" + after && ColonFree(after)
    decreases |s|
  {
    before, after := AtAColon(s);
    if !ColonFree(after) {
      var b, a := AtTheLastColon(after);
      before, after := before + ":" + b, a;
    }
  }

  lemma SameEnding(a: string, b: string, ending: string)
    requires a + ending == b + ending
    ensures a == b
  {
    assert a == (a + ending)[..|a|] && b == (b + ending)[..|b|];
  }

  lemma SameBeginning(beginning: string, a: string, b: string)
    requires beginning + a == beginning + b
    ensures a == b
  {
    assert a == (beginning + a)[|beginning|..] && b == (beginning + b)[|beginning|..];
  }

  /** Whatever the cameras: a key without other colons is its track's own. */
  lemma NobodyShares(camera: string, id: string, model: string, camera': string, id': string, model': string)
    requires ColonFree(camera) && ColonFree(id) && (ColonFree(model) || model' == model)
    ensures !SharesKey(camera, id, model, camera', id', model')
  {
    if Key(camera', id', model') == Key(camera, id, model) {
      KeyColons(camera, id, model);
      KeyColons(camera', id', model');
      forall part | part in {camera, id, model, camera', id'} ensures ColonFree(part) <==> Colons(part) == 0 {
        ColonFreeIff(part);
      }
      KeysDoNotCollide(camera, id, model, camera', id', model');
    }
  }

  // ---------------------------------------------------------------- the tracks of one camera

  /** One name is the end of the other, after a colon. */
  predicate Clash(model: string, model': string) {
    EndsAfterColon(model', model) || EndsAfterColon(model, model')
  }

  predicate EndsAfterColon(whole: string, end: string) {
    |end| < |whole| && whole[|whole| - |end| - 1] == ':' && whole[|whole| - |end|..] == end
  }

  lemma ColonFreeDoNotClash(model: string, model': string)
    requires ColonFree(model) && ColonFree(model')
    ensures !Clash(model, model')
  {
  }

  /** A key is shared on one camera only between models that clash. */
  lemma SharedKeysClash(camera: string, id: string, model: string, id': string, model': string)
    requires SharesKey(camera, id, model, camera, id', model')
    ensures Clash(model, model')
  {
    var rest, rest' := id + ":" + model, id' + ":" + model';
    assert Key(camera, id, model) == camera + ":" + rest && Key(camera, id', model') == camera + ":" + rest';
    SameBeginning(camera + ":", rest, rest');
    if |model| == |model'| {
      assert model == rest[|rest| - |model|..] == model';
      assert id + (":" + model) == rest && id' + (":" + model) == rest';
      SameEnding(id, id', ":" + model);
    } else if |model| < |model'| {
      EndOf(id, model, id', model');
    } else {
      EndOf(id', model', id, model);
    }
  }

  lemma EndOf(id: string, model: string, id': string, model': string)
    requires id + ":" + model == id' + ":" + model' && |model| < |model'|
    ensures EndsAfterColon(model', model)
  {
    var s, offset := id + ":" + model, |id'| + 1;
    assert forall i :: 0 <= i < |model'| ==> model'[i] == s[offset + i];
    assert s[|id|] == ':' && forall i :: 0 <= i < |model| ==> s[|id| + 1 + i] == model[i];
  }

  /** Clashing models have tracks that share a key. */
  lemma ClashingModelsShare(camera: string, model: string, model': string) returns (id: string, id': string)
    requires Clash(model, model')
    ensures SharesKey(camera, id, model, camera, id', model')
  {
    if EndsAfterColon(model', model) {
      id, id' := SharedEnd(camera, model, model');
    } else {
      id', id := SharedEnd(camera, model', model);
    }
  }

  lemma SharedEnd(camera: string, model: string, model': string) returns (id: string, id': string)
    requires EndsAfterColon(model', model)
    ensures SharesKey(camera, id, model, camera, id', model')
  {
    var x := model'[..|model'| - |model| - 1];
    id, id' := ":" + x, "";
    assert model' == x + ":" + model;
    assert Key(camera, id, model) == camera + "::" + x + ":" + model == Key(camera, id', model');
  }

  /** A key with a colon in its id or its model can be cut elsewhere. */
  lemma CutElsewhere(camera: string, id: string, model: string) returns (id': string, model': string)
    requires !(ColonFree(id) && ColonFree(model))
    ensures SharesKey(camera, id, model, camera, id', model')
    ensures !ColonFree(model) ==> ColonFree(model')
  {
    if !ColonFree(model) {
      var a, b := AtTheLastColon(model);
      id', model' := id + ":" + a, b;
      assert Key(camera, id, model) == camera + ":" + id + ":" + a + ":" + b;
      assert |b| < |model|;
    } else {
      var a, b := AtAColon(id);
      id', model' := a, b + ":" + model;
      assert Key(camera, id, model) == camera + ":" + a + ":" + b + ":" + model;
      assert |a| < |id|;
    }
  }

  /** On its camera a track has its key to itself: always, among the tracks of its model; among
      those of models with colon-free names, exactly when its own model's name is one; among those
      of any models, exactly when its id is colon-free too. */
  lemma KeyIsOwnIff(camera: string, id: string, model: string)
    ensures forall id' :: !SharesKey(camera, id, model, camera, id', model)
    ensures (forall id', model' :: ColonFree(model') ==> !SharesKey(camera, id, model, camera, id', model'))
      <==> ColonFree(model)
    ensures (forall id', model' :: !SharesKey(camera, id, model, camera, id', model'))
      <==> ColonFree(id) && ColonFree(model)
  {
    forall id' ensures !SharesKey(camera, id, model, camera, id', model) {
      if SharesKey(camera, id, model, camera, id', model) {
        SharedKeysClash(camera, id, model, id', model);
      }
    }
    if ColonFree(model) {
      forall id', model' | ColonFree(model') ensures !SharesKey(camera, id, model, camera, id', model') {
        if SharesKey(camera, id, model, camera, id', model') {
          SharedKeysClash(camera, id, model, id', model');
        }
      }
    }
    if ColonFree(id) && ColonFree(model) {
      forall id', model' ensures !SharesKey(camera, id, model, camera, id', model') {
        OwnAnyModel(camera, id, model, id', model');
      }
    } else {
      var id', model' := CutElsewhere(camera, id, model);
    }
  }

  lemma OwnAnyModel(camera: string, id: string, model: string, id': string, model': string)
    requires ColonFree(id) && ColonFree(model)
    ensures !SharesKey(camera, id, model, camera, id', model')
  {
    if Key(camera, id', model') == Key(camera, id, model) {
      KeyColons(camera, id, model);
      KeyColons(camera, id', model');
      forall part | part in {id, model, id', model'} ensures ColonFree(part) <==> Colons(part) == 0 {
        ColonFreeIff(part);
      }
      if SharesKey(camera, id, model, camera, id', model') {
        SharedKeysClash(camera, id, model, id', model');
      }
    }
  }

  /** One camera, and a model whose name has a colon. */
  lemma KeysWithColonsCollide()
    ensures SharesKey("cam", "a:b", "m", "cam", "a", "b:m")
  {
  }

  datatype RawScore = RawScore(camera: string, id: string, model: string, raw: real)

  /** The raw scores that went under a key. */
  function Under(h: seq<RawScore>, key: string): seq<real> {
    if h == [] then []
    else
      var last := h[|h| - 1];
      Under(h[..|h| - 1], key) + (if Key(last.camera, last.id, last.model) == key then [last.raw] else [])
  }

  /** The raw scores of one identity, on one camera, from one model. */
  function Of(h: seq<RawScore>, camera: string, id: string, model: string): seq<real> {
    if h == [] then []
    else
      var last := h[|h| - 1];
      Of(h[..|h| - 1], camera, id, model)
      + (if last.camera == camera && last.id == id && last.model == model then [last.raw] else [])
  }

  /** No raw score is from another track with this track's key. */
  ghost predicate Undisturbed(h: seq<RawScore>, camera: string, id: string, model: string) {
    forall r :: r in h ==> !SharesKey(camera, id, model, r.camera, r.id, r.model)
  }

  /** What went under a track's key is the track's own exactly when no track with the same key
      scored: then no other track touches its score. */
  lemma {:induction false} ScoresAreOwnIff(h: seq<RawScore>, camera: string, id: string, model: string)
    ensures |Of(h, camera, id, model)| <= |Under(h, Key(camera, id, model))|
    ensures Under(h, Key(camera, id, model)) == Of(h, camera, id, model) <==> Undisturbed(h, camera, id, model)
  {
    if h != [] {
      var before, last := h[..|h| - 1], h[|h| - 1];
      ScoresAreOwnIff(before, camera, id, model);
      assert h == before + [last];
      assert Undisturbed(h, camera, id, model) <==>
        Undisturbed(before, camera, id, model) && !SharesKey(camera, id, model, last.camera, last.id, last.model);
      var under, own := Under(before, Key(camera, id, model)), Of(before, camera, id, model);
      SameTail(under, own, last.raw);
      assert under + [] == under && own + [] == own;
    }
  }

  lemma SameTail(a: seq<real>, b: seq<real>, x: real)
    ensures a + [x] == b + [x] <==> a == b
  {
    if a + [x] == b + [x] {
      assert a == (a + [x])[..|a|] && b == (b + [x])[..|b|];
    }
  }

  predicate AnyName(model: string) {
    true
  }

  /** The scores one orchestrator keeps: of its camera, from some models. */
  predicate OfOneCamera(h: seq<RawScore>, camera: string, models: string -> bool) {
    forall r :: r in h ==> r.camera == camera && models(r.model)
  }

  /** Whatever is scored on its camera, a track's score is its own: with models whose names are
      colon-free, exactly when its model's name is; with any models, exactly when its id is too. */
  lemma ScoreIsAlwaysOwnIff(camera: string, id: string, model: string)
    ensures AlwaysOwn(camera, id, model, ColonFree) <==> ColonFree(model)
    ensures AlwaysOwn(camera, id, model, AnyName) <==> ColonFree(id) && ColonFree(model)
  {
    KeyIsOwnIff(camera, id, model);
    OwnKeyOwnScore(camera, id, model, ColonFree);
    OwnKeyOwnScore(camera, id, model, AnyName);
  }

  ghost predicate AlwaysOwn(camera: string, id: string, model: string, models: string -> bool) {
    forall h :: OfOneCamera(h, camera, models) ==> Under(h, Key(camera, id, model)) == Of(h, camera, id, model)
  }

  lemma OwnKeyOwnScore(camera: string, id: string, model: string, models: string -> bool)
    ensures AlwaysOwn(camera, id, model, models)
      <==> forall id', model' :: models(model') ==> !SharesKey(camera, id, model, camera, id', model')
  {
    if forall id', model' :: models(model') ==> !SharesKey(camera, id, model, camera, id', model') {
      forall h | OfOneCamera(h, camera, models) ensures Under(h, Key(camera, id, model)) == Of(h, camera, id, model) {
        ScoresAreOwnIff(h, camera, id, model);
      }
    } else {
      var id', model' :| models(model') && SharesKey(camera, id, model, camera, id', model');
      var h := [RawScore(camera, id', model', 0.0)];
      ScoresAreOwnIff(h, camera, id, model);
      assert h[0] in h && OfOneCamera(h, camera, models);
    }
  }

  /** Some models on one camera: every track's score is always its own, whatever the ids, exactly
      when no two of the models clash. */
  lemma ModelsKeepApartIff(camera: string, models: string -> bool)
    ensures (forall id, model :: models(model) ==> AlwaysOwn(camera, id, model, models))
      <==> forall m, m' :: models(m) && models(m') ==> !Clash(m, m')
  {
    hide AlwaysOwn, Clash, SharesKey;
    forall id, model ensures AlwaysOwn(camera, id, model, models)
      <==> forall id', model' :: models(model') ==> !SharesKey(camera, id, model, camera, id', model')
    {
      OwnKeyOwnScore(camera, id, model, models);
    }
    if forall m, m' :: models(m) && models(m') ==> !Clash(m, m') {
      forall id, model, id', model' | models(model) && models(model')
        ensures !SharesKey(camera, id, model, camera, id', model') {
        if SharesKey(camera, id, model, camera, id', model') {
          SharedKeysClash(camera, id, model, id', model');
        }
      }
    } else {
      var m, m' :| models(m) && models(m') && Clash(m, m');
      var id, id' := ClashingModelsShare(camera, m, m');
      assert !AlwaysOwn(camera, id, m, models);
    }
  }

  class Smoother {
    var emaScores: map<string, real>
    ghost var history: seq<RawScore>

    ghost predicate Valid()
      reads this
    {
      forall key :: Lookup(emaScores, key) == Smoothed(None, Under(history, key))
    }

    constructor ()
      ensures Valid() && history == []
    {
      emaScores, history := map[], [];
    }

    /** `_smooth_score`. The result is the smoothed history of its key, and of this identity on this
        camera from this model as long as no other track with the same key has scored: so always in
        an orchestrator, which has one camera, if its models' names are colon-free. Raw scores
        within bounds keep it within them. */
    method SmoothScore(raw: real, camera: string, id: string, model: string) returns (score: real)
      requires Valid()
      modifies this
      ensures Valid() && history == old(history) + [RawScore(camera, id, model, raw)]
      ensures Some(score) == Smoothed(None, Under(history, Key(camera, id, model)))
      ensures Undisturbed(history, camera, id, model) ==> Some(score) == Smoothed(None, Of(history, camera, id, model))
      ensures (forall r :: r in history ==> r.camera == camera && ColonFree(r.model)) ==>
        Some(score) == Smoothed(None, Of(history, camera, id, model))
      ensures ColonFree(camera) && ColonFree(id) && ColonFree(model) ==>
        Some(score) == Smoothed(None, Of(history, camera, id, model))
      ensures (forall r :: r in history ==> 0.0 <= r.raw <= 1.0) ==> 0.0 <= score <= 1.0
    {
      hide Under, Smoothed, Key, Of, Undisturbed, ColonFree;
      var key := Key(camera, id, model);
      ghost var entry := RawScore(camera, id, model, raw);
      SmoothedAfter(history, entry, key);
      score := if key in emaScores then ALPHA * raw + (1.0 - ALPHA) * emaScores[key] else raw;
      assert Lookup(emaScores, key) == Smoothed(None, Under(history, key));
      emaScores := emaScores[key := score];
      history := history + [entry];
      forall other ensures Lookup(emaScores, other) == Smoothed(None, Under(history, other)) {
        if other != key {
          assert old(Lookup(emaScores, other) == Smoothed(None, Under(history, other)));
          SmoothedAfter(old(history), entry, other);
        }
      }
      HistoryDecides(history, camera, id, model);
    }
  }

  lemma HistoryDecides(h: seq<RawScore>, camera: string, id: string, model: string)
    ensures Undisturbed(h, camera, id, model) ==> Under(h, Key(camera, id, model)) == Of(h, camera, id, model)
    ensures ColonFree(model) && (forall r :: r in h ==> r.camera == camera && ColonFree(r.model)) ==>
      Undisturbed(h, camera, id, model)
    ensures ColonFree(camera) && ColonFree(id) && ColonFree(model) ==> Undisturbed(h, camera, id, model)
    ensures (forall r :: r in h ==> 0.0 <= r.raw <= 1.0) ==>
      Between(0.0, Smoothed(None, Under(h, Key(camera, id, model))), 1.0)
  {
    hide SharesKey;
    ScoresAreOwnIff(h, camera, id, model);
    KeyIsOwnIff(camera, id, model);
    if ColonFree(camera) && ColonFree(id) && ColonFree(model) {
      forall r | r in h ensures !SharesKey(camera, id, model, r.camera, r.id, r.model) {
        NobodyShares(camera, id, model, r.camera, r.id, r.model);
      }
    }
    UnderIsPart(h, Key(camera, id, model));
    if forall r :: r in h ==> 0.0 <= r.raw <= 1.0 {
      forall i | 0 <= i < |Under(h, Key(camera, id, model))| ensures 0.0 <= Under(h, Key(camera, id, model))[i] <= 1.0 {
        assert Under(h, Key(camera, id, model))[i] in Under(h, Key(camera, id, model));
      }
      SmoothedStaysBetween(None, Under(h, Key(camera, id, model)), 0.0, 1.0);
    }
  }

  lemma SmoothedAfter(h: seq<RawScore>, entry: RawScore, key: string)
    ensures Smoothed(None, Under(h + [entry], key))
      == if Key(entry.camera, entry.id, entry.model) == key
         then Some(Step(Smoothed(None, Under(h, key)), entry.raw))
         else Smoothed(None, Under(h, key))
  {
    assert (h + [entry])[..|h|] == h;
    if Key(entry.camera, entry.id, entry.model) == key {
      assert Under(h + [entry], key) == Under(h, key) + [entry.raw];
      SmoothedOnce(None, Under(h, key), entry.raw);
    } else {
      assert Under(h + [entry], key) == Under(h, key);
    }
  }

  lemma {:induction false} UnderIsPart(h: seq<RawScore>, key: string)
    ensures forall x :: x in Under(h, key) ==> exists r :: r in h && r.raw == x
  {
    if h != [] {
      UnderIsPart(h[..|h| - 1], key);
    }
  }

  // ---------------------------------------------------------------- scores from a model's output

  ghost predicate Exponential(exp: real -> real) {
    (forall x :: 0.0 < exp(x)) && (forall x, y :: x < y ==> exp(x) < exp(y))
  }

  function Larger(x: real, y: real): real {
    if x < y then y else x
  }

  /** Softmax of two logits, taking the second; any other length yields its first number as it is.
      No numbers at all are an error. */
  function ExtractVjepaScore(logits: seq<real>, exp: real -> real): Option<real>
    requires Exponential(exp)
  {
    if logits == [] then None
    else if |logits| != 2 then Some(logits[0])
    else
      var max := Larger(logits[0], logits[1]);
      var first, second := exp(logits[0] - max), exp(logits[1] - max);
      Some(second / (first + second))
  }

  /** A score of two logits is a probability, at least a half exactly when the second logit is the
      larger; a score of anything else is one only if the number already was. */
  lemma VjepaScoreIsAProbabilityIff(logits: seq<real>, exp: real -> real)
    requires Exponential(exp) && logits != []
    ensures var score := ExtractVjepaScore(logits, exp).value;
            && (0.0 <= score <= 1.0 <==> |logits| == 2 || 0.0 <= logits[0] <= 1.0)
            && (|logits| == 2 ==> (0.5 <= score <==> logits[0] <= logits[1]))
  {
    if |logits| == 2 {
      var max := Larger(logits[0], logits[1]);
      Share(exp(logits[0] - max), exp(logits[1] - max));
    }
  }

  /** What is added turns into a factor. */
  ghost predicate Multiplies(exp: real -> real) {
    forall x, y :: exp(x + y) == exp(x) * exp(y)
  }

  /** Taking the larger logit off first changes nothing: the score is the second logit's share of the
      two exponentials. */
  lemma ScoreIsTheSoftmax(logits: seq<real>, exp: real -> real)
    requires Exponential(exp) && Multiplies(exp) && |logits| == 2
    ensures 0.0 < exp(logits[0]) + exp(logits[1])
    ensures ExtractVjepaScore(logits, exp).Some?
    ensures ExtractVjepaScore(logits, exp).value * (exp(logits[0]) + exp(logits[1])) == exp(logits[1])
  {
    hide Multiplies, Exponential;
    var max := Larger(logits[0], logits[1]);
    Shift(exp, logits[0], max);
    Shift(exp, logits[1], max);
    Positive(exp, logits[0] - max, logits[1] - max);
    Positive(exp, logits[0], logits[1]);
    SameShare(exp(logits[0] - max), exp(logits[1] - max), exp(max));
  }

  lemma Positive(exp: real -> real, x: real, y: real)
    requires Exponential(exp)
    ensures 0.0 < exp(x) && 0.0 < exp(y)
  {
  }

  lemma Shift(exp: real -> real, x: real, m: real)
    requires Multiplies(exp)
    ensures exp(x) == exp(x - m) * exp(m)
  {
    assert x - m + m == x;
  }

  lemma SameShare(a: real, b: real, factor: real)
    requires 0.0 < a && 0.0 < b
    ensures b / (a + b) * (a * factor + b * factor) == b * factor
  {
    var share := b / (a + b);
    assert share * (a + b) == b;
    Distribute(a, b, factor);
    Associate(share, a + b, factor);
  }

  lemma Distribute(a: real, b: real, factor: real)
    ensures a * factor + b * factor == (a + b) * factor
  {
  }

  lemma Associate(a: real, b: real, c: real)
    ensures a * (b * c) == a * b * c
  {
  }

  /** A single logit outside [0, 1] is passed on as the score. */
  lemma OneLogitIsNoProbability(exp: real -> real)
    requires Exponential(exp)
    ensures ExtractVjepaScore([2.0], exp) == Some(2.0)
  {
  }

  lemma Share(a: real, b: real)
    requires 0.0 < a && 0.0 < b
    ensures 0.0 < b / (a + b) < 1.0
    ensures 0.5 <= b / (a + b) <==> a <= b
  {
    var share := b / (a + b);
    assert share * (a + b) == b;
    ShareOf(share, a + b, b);
  }

  lemma ShareOf(share: real, whole: real, part: real)
    requires 0.0 < part < whole && share * whole == part
    ensures 0.0 < share < 1.0
    ensures 0.5 <= share <==> whole <= part + part
  {
    Sign(share, whole, part);
    Sign(1.0 - share, whole, whole - part);
    Sign(0.5 - share, whole, 0.5 * whole - part);
  }

  lemma Sign(x: real, y: real, product: real)
    requires 0.0 < y && x * y == product
    ensures 0.0 < product <==> 0.0 < x
  {
  }
}
