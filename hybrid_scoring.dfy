/**
 * Per-gear scoring of the hybrid recommender (APP01/recommender_hybrid.py):
 * sentiment formatting, robust spec parsing, and the additive bonus tables
 * of the five category scorers. A gear's score is the sum of a few parts,
 * each a bonus (or penalty) with the reasons it adds to the explanation.
 */
module HybridScoring {
  import opened Wrappers
  import opened Text

  /** A gear's `specs` once decoded as a dict; text that is not valid JSON decodes to the empty map. */
  type Specs = map<string, string>

  /** The user's answers (`genre`, `hand_size`, `grip`). */
  type Prefs = map<string, string>

  datatype Gear = Gear(gearId: int, name: string, brand: string, kind: string, specs: Specs)

  /** `d.get(key, default)` for a string-valued dict. */
  function Get(m: map<string, string>, key: string, default: string): string {
    if key in m then m[key] else default
  }

  /** The explanation lines, by kind, with the values they interpolate. */
  datatype Reason =
    | HighDurability(maxWeight: real)
    | BreathableFabric
    | PremiumRealLeather
    | AdjustableLumbar
    | HighReviewerSentiment(value: real)
    | CompactFitsSmallHands(length: real)
    | LargeFitsLargeHands(length: real)
    | ErgonomicForPalm
    | AmbidextrousForClaw
    | ShortForFingertip(length: real)
    | UltraLightForFps(weight: real)
    | BalancedForMoba(weight: real)
    | StableForMmo(weight: real)
    | TopRatedByReviewers(value: real)
    | CompactKeyboardLayout(formFactor: string)
    | TklForFps
    | TklForMoba
    | FullSizeForMacros
    | ExcellentSoundQuality(value: real)
    | ProLevelRefresh(hz: int)
    | CompetitiveRefresh(hz: int)
    | HighResolution(resolution: string)
    | VibrantPanel(panel: string)
    | MostUsedAmongPros(category: string)
    | UsedByPros(count: nat)
    | Context(text: string)

  /** One scorer result: the dict with `gear`, `score`, `reasons` and the raw `sentiment`. */
  datatype Entry = Entry(gear: Gear, score: real, reasons: seq<Reason>, sentiment: Option<string>)

  /** A contribution to a score together with the reasons it explains itself by. */
  datatype Part = Part(bonus: real, reasons: seq<Reason>)

  function Min(a: real, b: real): real {
    if a <= b then a else b
  }

  // ---------------------------------------------------------------------
  // Sentiment

  /** Round half to even: the integer nearest `t`, an even one on a tie. */
  function RoundHalfEven(t: real): (r: int)
    ensures t - 0.5 <= r as real <= t + 0.5
  {
    var f := t.Floor;
    var d := t - f as real;
    if d < 0.5 then f
    else if d > 0.5 then f + 1
    else if f % 2 == 0 then f else f + 1
  }

  lemma RoundHalfEvenMonotone(s: real, t: real)
    requires s <= t
    ensures RoundHalfEven(s) <= RoundHalfEven(t)
  {
    if s.Floor < t.Floor {
      assert RoundHalfEven(s) <= s.Floor + 1 <= t.Floor <= RoundHalfEven(t);
    }
  }

  /** `round(v, 1)`: the nearest multiple of 0.1. */
  function Round1(v: real): (r: real)
    ensures -0.05 <= r - v <= 0.05
    ensures (r * 10.0).Floor as real == r * 10.0
  {
    RoundHalfEven(v * 10.0) as real / 10.0
  }

  /** `_format_sentiment` on the parsed value: capped at 9.9 and rounded to
      one decimal; 0 when the text was not a number. */
  function FormatValue(parsed: Option<real>): (r: real)
    ensures r <= 9.9
    ensures parsed.None? ==> r == 0.0
    ensures parsed.Some? ==> -0.05 <= r - Min(parsed.value, 9.9) <= 0.05
  {
    match parsed
    case None => 0.0
    case Some(v) =>
      var capped := Min(v, 9.9);
      assert RoundHalfEven(capped * 10.0) <= 99;
      Round1(capped)
  }

  /** A higher review score never formats to a lower one. */
  lemma FormatValueMonotone(x: real, y: real)
    requires x <= y
    ensures FormatValue(Some(x)) <= FormatValue(Some(y))
  {
    RoundHalfEvenMonotone(Min(x, 9.9) * 10.0, Min(y, 9.9) * 10.0);
  }

  /** `_format_sentiment`: `float(raw)`, then capped and rounded. */
  function FormatSentiment(raw: string): (r: real)
    ensures r <= 9.9
    ensures ParseReal(raw).None? ==> r == 0.0
  {
    FormatValue(ParseReal(raw))
  }

  /** `specs.get('sentiment_score', 0)`: `None` stands for the default 0. */
  function RawSentiment(specs: Specs): Option<string> {
    if "sentiment_score" in specs then Some(specs["sentiment_score"]) else None
  }

  /** Python truthiness of the raw sentiment: present and not the empty string. */
  predicate Truthy(raw: Option<string>) {
    raw.Some? && raw.value != ""
  }

  /** The sentiment bonus for a formatted value: `min(value * factor, cap)`. */
  function SentimentBonus(value: real, factor: real, cap: real): (r: real)
    ensures r <= cap
  {
    Min(value * factor, cap)
  }

  /** `min(format(sentiment) * factor, cap)` when the raw sentiment is truthy,
      nothing otherwise; a reason once the formatted value exceeds `threshold`. */
  function SentimentPart(raw: Option<string>, factor: real, cap: real, threshold: Option<real>,
                         reason: real -> Reason): (p: Part)
    ensures Truthy(raw) ==> p.bonus == SentimentBonus(FormatSentiment(raw.value), factor, cap)
    ensures !Truthy(raw) ==> p == Part(0.0, [])
    ensures |p.reasons| <= 1
  {
    if !Truthy(raw) then Part(0.0, [])
    else
      var v := FormatSentiment(raw.value);
      Part(SentimentBonus(v, factor, cap),
           if threshold.Some? && v > threshold.value then [reason(v)] else [])
  }

  /** For a non-negative factor, a higher formatted review score never
      lowers the sentiment bonus (with `FormatValueMonotone`, neither does a
      higher raw score), and a text that is not a number earns none. */
  lemma SentimentBonusMonotone(a: real, b: real, factor: real, cap: real)
    requires a <= b && factor >= 0.0
    ensures SentimentBonus(a, factor, cap) <= SentimentBonus(b, factor, cap)
    ensures cap >= 0.0 ==> SentimentBonus(FormatValue(None), factor, cap) == 0.0
  {
    ScaleMonotone(a, b, factor);
  }

  lemma ScaleMonotone(a: real, b: real, c: real)
    requires a <= b && c >= 0.0
    ensures a * c <= b * c
  {
    assert b * c - a * c == (b - a) * c;
  }

  /** Two contributions added: bonuses summed, reasons in order. */
  function Plus(a: Part, b: Part): Part {
    Part(a.bonus + b.bonus, a.reasons + b.reasons)
  }

  function MakeEntry(g: Gear, p: Part): Entry {
    Entry(g, p.bonus, p.reasons, RawSentiment(g.specs))
  }

  // ---------------------------------------------------------------------
  // Chair

  /** `max_weight`: the `Max weight` spec as a number; 100 when absent,
      empty or not a number. */
  function ChairMaxWeight(specs: Specs): (w: real)
    ensures ("Max weight" !in specs || specs["Max weight"] == "") ==> w == 100.0
    ensures "Max weight" in specs && specs["Max weight"] != "" && ParseReal(specs["Max weight"]).None? ==> w == 100.0
    ensures "Max weight" in specs && ParseReal(specs["Max weight"]).Some? ==> w == ParseReal(specs["Max weight"]).value
  {
    if "Max weight" !in specs || specs["Max weight"] == "" then 100.0
    else ParseReal(specs["Max weight"]).GetOr(100.0)
  }

  lemma HundredDigits()
    ensures AllDigits("100") && DigitsValue("100") == 100
  {
    assert "100"[..2] == "10" && "10"[..1] == "1" && "1"[..0] == "";
    assert DigitsValue("1") == 1;
    assert DigitsValue("10") == 10;
  }

  lemma SixtyDigits()
    ensures AllDigits("60") && DigitsValue("60") == 60
  {
    assert "60"[..1] == "6" && "6"[..0] == "";
    assert DigitsValue("6") == 6;
  }

  /** The chair's default maximum weight is what `float('100')` gives. */
  lemma DefaultMaxWeightParses()
    ensures ParseReal("100") == Some(100.0)
  {
    HundredDigits();
    ParseRealOfDigits("100");
  }

  /** The monitor's default refresh rate is what `float('60'.replace('Hz', ''))` gives. */
  lemma DefaultRefreshRateParses()
    ensures ParseReal(ReplaceAll("60", "Hz", "")) == Some(60.0)
  {
    assert ReplaceAll("60", "Hz", "") == "60" by {
      assert "60"[..2][0] == '6';
      assert "60"[1..] == "0";
    }
    SixtyDigits();
    ParseRealOfDigits("60");
  }

  function ChairEntry(g: Gear, prefs: Prefs): (e: Entry)
    ensures e.gear == g && e.sentiment == RawSentiment(g.specs)
    ensures e.score <= 75.0
  {
    var specs := g.specs;
    var maxWeight := ChairMaxWeight(specs);
    var durability :=
      if Get(prefs, "hand_size", "Medium") == "Large" && maxWeight >= 130.0
      then Part(20.0, [HighDurability(maxWeight)]) else Part(0.0, []);
    var material := Get(specs, "Material", "");
    var materialPart :=
      if Contains(material, "Fabric") then Part(10.0, [BreathableFabric])
      else if Contains(material, "Real Leather") then Part(15.0, [PremiumRealLeather])
      else Part(0.0, []);
    var lumbar :=
      if Contains(Get(specs, "Lumbar support", ""), "Adjustable") then Part(10.0, [AdjustableLumbar])
      else Part(0.0, []);
    var sentiment := SentimentPart(RawSentiment(specs), 2.0, 30.0, Some(5.0), v => HighReviewerSentiment(v));
    MakeEntry(g, Plus(Plus(Plus(durability, materialPart), lumbar), sentiment))
  }

  // ---------------------------------------------------------------------
  // Mouse

  datatype MouseDims = MouseDims(length: real, weight: real)

  /** `specs.get('Weight') or specs.get('W (g)')`. */
  function WeightText(specs: Specs): Option<string> {
    if "Weight" in specs && specs["Weight"] != "" then Some(specs["Weight"])
    else if "W (g)" in specs then Some(specs["W (g)"])
    else None
  }

  /** `_parse_mouse_specs`: never fails. The length is the third of exactly
      three `/`-separated dimensions, 0.0 otherwise; the weight is the
      weight text without its `g`, 999.0 when absent or not a number. */
  function ParseMouseSpecs(specs: Specs): (d: MouseDims)
    ensures var dims := Get(specs, "H / W / L (cm)", "");
      var parts := Split(dims, '/');
      d.length == (if dims != [] && |parts| == 3 && ParseReal(StripSpace(parts[2])).Some?
                   then ParseReal(StripSpace(parts[2])).value else 0.0)
    ensures var w := WeightText(specs);
      d.weight == (if Truthy(w) && ParseReal(StripSpace(RemoveChar(w.value, 'g'))).Some?
                   then ParseReal(StripSpace(RemoveChar(w.value, 'g'))).value else 999.0)
    ensures CountChar(Get(specs, "H / W / L (cm)", ""), '/') != 2 ==> d.length == 0.0
    ensures !Truthy(WeightText(specs)) ==> d.weight == 999.0
  {
    var dims := Get(specs, "H / W / L (cm)", "");
    var length :=
      if dims != [] then
        var parts := Split(dims, '/');
        if |parts| == 3 then ParseReal(StripSpace(parts[2])).GetOr(0.0) else 0.0
      else 0.0;
    var w := WeightText(specs);
    var weight :=
      if Truthy(w) then ParseReal(StripSpace(RemoveChar(w.value, 'g'))).GetOr(999.0) else 999.0;
    MouseDims(length, weight)
  }

  /** Hand-size fit: a bonus for a length that suits the hand, a penalty
      for one that clearly does not. */
  function MouseFit(handSize: string, length: real): (p: Part)
    ensures handSize == "Small" ==>
      p.bonus == (if 0.0 < length < 12.0 then 30.0 else if length > 12.5 then -20.0 else 0.0)
    ensures handSize == "Large" ==>
      p.bonus == (if length > 12.4 then 30.0 else if 0.0 < length < 11.8 then -10.0 else 0.0)
    ensures handSize != "Small" && handSize != "Large" ==>
      p.bonus == (if 11.5 <= length <= 12.6 then 15.0 else 0.0)
    ensures -20.0 <= p.bonus <= 30.0
  {
    if handSize == "Small" then
      if length > 0.0 && length < 12.0 then Part(30.0, [CompactFitsSmallHands(length)])
      else if length > 12.5 then Part(-20.0, [])
      else Part(0.0, [])
    else if handSize == "Large" then
      if length > 12.4 then Part(30.0, [LargeFitsLargeHands(length)])
      else if length > 0.0 && length < 11.8 then Part(-10.0, [])
      else Part(0.0, [])
    else if 11.5 <= length <= 12.6 then Part(15.0, [])
    else Part(0.0, [])
  }

  /** A mouse that earns the fit bonus for one hand size earns no bonus for
      the opposite one. */
  lemma MouseFitExclusive(length: real)
    ensures MouseFit("Small", length).bonus == 30.0 ==> MouseFit("Large", length).bonus <= 0.0
    ensures MouseFit("Large", length).bonus == 30.0 ==> MouseFit("Small", length).bonus <= 0.0
  {
  }

  /** Grip fit, from the shape and the length. */
  function MouseGrip(grip: string, shape: string, length: real): (p: Part)
    ensures -10.0 <= p.bonus <= 30.0
  {
    if grip == "Palm" then
      if Contains(shape, "Ergonomic") then Part(25.0, [ErgonomicForPalm])
      else if length > 12.5 then Part(10.0, [])
      else Part(0.0, [])
    else if grip == "Claw" then
      if Contains(shape, "Ambidextrous") then Part(15.0, [AmbidextrousForClaw]) else Part(0.0, [])
    else if grip == "Fingertip" then
      var short := if length > 0.0 && length < 12.1 then Part(30.0, [ShortForFingertip(length)]) else Part(0.0, []);
      var ergo := if Contains(shape, "Ergonomic") then -10.0 else 0.0;
      Part(short.bonus + ergo, short.reasons)
    else Part(0.0, [])
  }

  /** Genre fit, from the weight. */
  function MouseGenre(genre: string, weight: real): (p: Part)
    ensures 0.0 <= p.bonus <= 35.0
  {
    if genre == "FPS" then
      if weight < 65.0 then Part(35.0, [UltraLightForFps(weight)])
      else if weight < 80.0 then Part(15.0, [])
      else Part(0.0, [])
    else if genre == "MOBA" then
      if 60.0 <= weight <= 90.0 then Part(20.0, [BalancedForMoba(weight)]) else Part(0.0, [])
    else if genre == "MMO" || genre == "RPG" then
      if weight > 75.0 then Part(20.0, [StableForMmo(weight)]) else Part(0.0, [])
    else Part(0.0, [])
  }

  /** For FPS, a lighter mouse never earns a smaller weight bonus. */
  lemma LighterNeverWorseForFps(w1: real, w2: real)
    requires w1 <= w2
    ensures MouseGenre("FPS", w1).bonus >= MouseGenre("FPS", w2).bonus
  {
  }

  /** `recommend_mouse` for one gear. */
  function MouseEntry(g: Gear, prefs: Prefs): (e: Entry)
    ensures e.gear == g && e.sentiment == RawSentiment(g.specs)
    ensures e.score <= 110.0
  {
    var dims := ParseMouseSpecs(g.specs);
    var shape := Get(g.specs, "Shape", "Ambidextrous");
    var fit := MouseFit(Get(prefs, "hand_size", "Medium"), dims.length);
    var grip := MouseGrip(Get(prefs, "grip", "Palm"), shape, dims.length);
    var genre := MouseGenre(Get(prefs, "genre", "FPS"), dims.weight);
    var sentiment := SentimentPart(RawSentiment(g.specs), 1.5, 15.0, Some(8.0), v => TopRatedByReviewers(v));
    MakeEntry(g, Plus(Plus(Plus(fit, grip), genre), sentiment))
  }

  // ---------------------------------------------------------------------
  // Keyboard

  function KeyboardLayout(genre: string, formFactor: string): (p: Part)
    ensures 0.0 <= p.bonus <= 35.0
  {
    if genre == "FPS" then
      if Contains(formFactor, "60%") || Contains(formFactor, "65%") || Contains(formFactor, "75%")
      then Part(35.0, [CompactKeyboardLayout(formFactor)])
      else if Contains(formFactor, "TKL") then Part(20.0, [TklForFps])
      else Part(0.0, [])
    else if genre == "MOBA" then
      if Contains(formFactor, "TKL") then Part(25.0, [TklForMoba]) else Part(0.0, [])
    else if genre == "MMO" || genre == "RPG" then
      if Contains(formFactor, "Full Size") then Part(35.0, [FullSizeForMacros]) else Part(0.0, [])
    else Part(0.0, [])
  }

  function KeyboardEntry(g: Gear, prefs: Prefs): (e: Entry)
    ensures e.gear == g && e.sentiment == RawSentiment(g.specs)
    ensures e.score <= 55.0
  {
    var layout := KeyboardLayout(Get(prefs, "genre", "FPS"), Get(g.specs, "Form Factor", ""));
    var sentiment := SentimentPart(RawSentiment(g.specs), 2.0, 20.0, None, v => HighReviewerSentiment(v));
    MakeEntry(g, Plus(layout, sentiment))
  }

  // ---------------------------------------------------------------------
  // Headset

  /** Headsets are ranked on review sentiment alone. */
  function HeadsetEntry(g: Gear, prefs: Prefs): (e: Entry)
    ensures e.gear == g && e.sentiment == RawSentiment(g.specs)
    ensures e.score <= 60.0
    ensures !Truthy(RawSentiment(g.specs)) ==> e.score == 0.0 && e.reasons == []
  {
    MakeEntry(g, SentimentPart(RawSentiment(g.specs), 4.0, 60.0, Some(7.0), v => ExcellentSoundQuality(v)))
  }

  // ---------------------------------------------------------------------
  // Monitor

  /** The refresh rate: the `Refresh Rate` spec (default "60") without
      "Hz", as a number; 60 when it is not one. */
  function RefreshRate(specs: Specs): (hz: real)
    ensures "Refresh Rate" !in specs ==> hz == 60.0
    ensures "Refresh Rate" in specs ==> hz == ParseReal(ReplaceAll(specs["Refresh Rate"], "Hz", "")).GetOr(60.0)
  {
    if "Refresh Rate" !in specs then 60.0
    else ParseReal(ReplaceAll(specs["Refresh Rate"], "Hz", "")).GetOr(60.0)
  }

  /** The FPS refresh-rate tier: +40 from 360 Hz, +30 from 240, +10 from 144. */
  function RefreshTier(hz: real): (p: Part)
    ensures p.bonus == (if hz >= 360.0 then 40.0 else if hz >= 240.0 then 30.0
                        else if hz >= 144.0 then 10.0 else 0.0)
  {
    if hz >= 360.0 then Part(40.0, [ProLevelRefresh(hz.Floor)])
    else if hz >= 240.0 then Part(30.0, [CompetitiveRefresh(hz.Floor)])
    else if hz >= 144.0 then Part(10.0, [])
    else Part(0.0, [])
  }

  /** A faster panel never falls into a lower tier. */
  lemma RefreshTierMonotone(h1: real, h2: real)
    requires h1 <= h2
    ensures RefreshTier(h1).bonus <= RefreshTier(h2).bonus
  {
  }

  function MonitorFit(genre: string, specs: Specs): (p: Part)
    ensures -10.0 <= p.bonus <= 55.0
    ensures genre == "FPS" ==>
      p.bonus == RefreshTier(RefreshRate(specs)).bonus
                 + (if Contains(Get(specs, "Resolution", ""), "1080") then 10.0 else 0.0)
    ensures genre != "FPS" && genre != "MOBA" && genre != "MMO" && genre != "RPG" ==> p.bonus == 0.0
  {
    var hz := RefreshRate(specs);
    var res := Get(specs, "Resolution", "");
    if genre == "FPS" then
      var tier := RefreshTier(hz);
      Part(tier.bonus + (if Contains(res, "1080") then 10.0 else 0.0), tier.reasons)
    else if genre == "MOBA" || genre == "MMO" || genre == "RPG" then
      var resolution :=
        if Contains(res, "1440") || Contains(res, "2160") then Part(35.0, [HighResolution(res)])
        else if Contains(res, "1080") then Part(-10.0, [])
        else Part(0.0, []);
      var panel := Get(specs, "Panel Tech", "");
      var panelPart :=
        if Contains(panel, "OLED") || Contains(panel, "IPS") then Part(20.0, [VibrantPanel(panel)])
        else Part(0.0, []);
      Plus(resolution, panelPart)
    else Part(0.0, [])
  }

  function MonitorEntry(g: Gear, prefs: Prefs): (e: Entry)
    ensures e.gear == g && e.sentiment == RawSentiment(g.specs)
    ensures e.score <= 75.0
  {
    var fit := MonitorFit(Get(prefs, "genre", "FPS"), g.specs);
    var sentiment := SentimentPart(RawSentiment(g.specs), 2.0, 20.0, None, v => HighReviewerSentiment(v));
    MakeEntry(g, Plus(fit, sentiment))
  }
}
