/** Classification of clicked links and buttons by the analytics layer
    (`Analytics.getButtonType`, `isConversionButton`, `getConversionValue`).
    The classification is an ordered first-match rule list: the link address
    is tested against seven substrings, then the class attribute against
    three; an element that matches none is `other`. */
module Buttons {
  import opened Common
  import opened Text

  datatype ButtonType =
    | HtpProApp | Platform | Youtube | EbookCourse | Telegram | Whatsapp | Instagram
    | HeroCta | AppButton | FinalCta | Other

  /** The clicked `<a>` or `<button>`: its resolved `href` (empty when it has
      none), its `className`, its `data-action` (empty when absent) and its
      text content. */
  datatype Button = Button(href: string, className: string, action: string, text: string)

  /** One classification rule: a substring and the type it yields. */
  datatype Rule = Rule(pattern: string, kind: ButtonType)

  /** Rules on the link address, in the order they are tested. */
  const HrefRules: seq<Rule> := [
    Rule("home.htppro.com", HtpProApp),
    Rule("luck.bet", Platform),
    Rule("youtube.com", Youtube),
    Rule("humildedaroleta.com.br", EbookCourse),
    Rule("t.me", Telegram),
    Rule("wa.me", Whatsapp),
    Rule("instagram.com", Instagram)
  ]

  /** Rules on the class attribute, tested only when no address rule matched. */
  const ClassRules: seq<Rule> := [
    Rule("hero-cta", HeroCta),
    Rule("app-button", AppButton),
    Rule("cta-button", FinalCta)
  ]

  /** The types `isConversionButton` accepts. */
  const ConversionTypes: seq<ButtonType> :=
    [HtpProApp, Platform, EbookCourse, HeroCta, AppButton, FinalCta]

  /** Rule `i` is the first rule whose pattern occurs in `s`. */
  predicate FirstMatchAt(rules: seq<Rule>, s: string, i: int) {
    && 0 <= i < |rules|
    && Contains(s, rules[i].pattern)
    && forall j :: 0 <= j < i ==> !Contains(s, rules[j].pattern)
  }

  /** The type of the first rule whose pattern occurs in `s`, if any. */
  function FirstMatch(rules: seq<Rule>, s: string): Option<ButtonType> {
    if rules == [] then None
    else if Contains(s, rules[0].pattern) then Some(rules[0].kind)
    else FirstMatch(rules[1..], s)
  }

  /** `FirstMatch` finds nothing exactly when no pattern occurs, and
      otherwise yields the type of the first rule whose pattern occurs. */
  lemma {:induction false} FirstMatchSpec(rules: seq<Rule>, s: string)
    ensures FirstMatch(rules, s).None? <==> forall i :: 0 <= i < |rules| ==> !Contains(s, rules[i].pattern)
    ensures FirstMatch(rules, s).Some? ==>
      exists i :: FirstMatchAt(rules, s, i) && FirstMatch(rules, s).value == rules[i].kind
  {
    if rules != [] {
      if Contains(s, rules[0].pattern) {
        assert FirstMatchAt(rules, s, 0);
      } else {
        FirstMatchSpec(rules[1..], s);
        FirstMatchShift(rules, s);
      }
    }
  }

  /** Past a rule that does not match, matching the rest is matching the tail. */
  lemma FirstMatchShift(rules: seq<Rule>, s: string)
    requires rules != [] && !Contains(s, rules[0].pattern)
    ensures forall i :: FirstMatchAt(rules[1..], s, i) ==> FirstMatchAt(rules, s, i + 1)
    ensures (forall i :: 0 <= i < |rules| - 1 ==> !Contains(s, rules[1..][i].pattern)) ==>
      forall i :: 0 <= i < |rules| ==> !Contains(s, rules[i].pattern)
  {
    forall i | FirstMatchAt(rules[1..], s, i) ensures FirstMatchAt(rules, s, i + 1) {
      forall j | 0 <= j < i + 1 ensures !Contains(s, rules[j].pattern) {
        if j > 0 { assert rules[j] == rules[1..][j - 1]; }
      }
    }
    if forall i :: 0 <= i < |rules| - 1 ==> !Contains(s, rules[1..][i].pattern) {
      forall i | 0 <= i < |rules| ensures !Contains(s, rules[i].pattern) {
        if i > 0 { assert rules[i] == rules[1..][i - 1]; }
      }
    }
  }

  /** `getButtonType`: the address rules first, then the class rules, and
      `Other` when nothing matches. */
  function GetButtonType(b: Button): ButtonType {
    match FirstMatch(HrefRules, b.href)
    case Some(k) => k
    case None =>
      match FirstMatch(ClassRules, b.className)
      case Some(k) => k
      case None => Other
  }

  /** The address decides when any address rule matches (the first matching
      one wins); otherwise the first matching class rule decides; an element
      that matches neither is `Other`. */
  lemma GetButtonTypeSpec(b: Button)
    ensures (exists i :: FirstMatchAt(HrefRules, b.href, i)) ==>
      exists i :: FirstMatchAt(HrefRules, b.href, i) && GetButtonType(b) == HrefRules[i].kind
    ensures (forall i :: 0 <= i < |HrefRules| ==> !Contains(b.href, HrefRules[i].pattern)) ==>
      (GetButtonType(b) == Other <==> forall i :: 0 <= i < |ClassRules| ==> !Contains(b.className, ClassRules[i].pattern))
    ensures (forall i :: 0 <= i < |HrefRules| ==> !Contains(b.href, HrefRules[i].pattern)) && GetButtonType(b) != Other ==>
      exists i :: FirstMatchAt(ClassRules, b.className, i) && GetButtonType(b) == ClassRules[i].kind
  {
    FirstMatchSpec(HrefRules, b.href);
    FirstMatchSpec(ClassRules, b.className);
  }

  /** Once an address rule matches, the class attribute is irrelevant. */
  lemma AddressDecides(b1: Button, b2: Button, i: int)
    requires b1.href == b2.href && 0 <= i < |HrefRules| && Contains(b1.href, HrefRules[i].pattern)
    ensures GetButtonType(b1) == GetButtonType(b2)
  {
    FirstMatchSpec(HrefRules, b1.href);
  }

  /** A link whose address holds `t.me` and none of the four addresses
      tested before it is classified `Telegram`, whatever its classes say. */
  lemma TelegramLink(b: Button)
    requires Contains(b.href, "t.me")
    requires forall i :: 0 <= i < 4 ==> !Contains(b.href, HrefRules[i].pattern)
    ensures GetButtonType(b) == Telegram
  {
    assert FirstMatchAt(HrefRules, b.href, 4);
    GetButtonTypeSpec(b);
    var i :| FirstMatchAt(HrefRules, b.href, i) && GetButtonType(b) == HrefRules[i].kind;
    FirstMatchUnique(HrefRules, b.href, i, 4);
  }

  lemma FirstMatchUnique(rules: seq<Rule>, s: string, i: int, j: int)
    requires FirstMatchAt(rules, s, i) && FirstMatchAt(rules, s, j)
    ensures i == j
  {
  }

  /** An element whose address and classes match no rule is `Other`. */
  lemma UnmatchedIsOther(b: Button)
    requires forall i :: 0 <= i < |HrefRules| ==> !Contains(b.href, HrefRules[i].pattern)
    requires forall i :: 0 <= i < |ClassRules| ==> !Contains(b.className, ClassRules[i].pattern)
    ensures GetButtonType(b) == Other
  {
    FirstMatchSpec(HrefRules, b.href);
    FirstMatchSpec(ClassRules, b.className);
  }

  /** `isConversionButton`: whether the element's type is one of the six
      conversion types. */
  function IsConversionButton(b: Button): (r: bool)
    ensures r <==> GetButtonType(b) !in {Youtube, Telegram, Whatsapp, Instagram, Other}
  {
    var k := GetButtonType(b);
    assert k in ConversionTypes <==>
      (|| k == ConversionTypes[0] || k == ConversionTypes[1] || k == ConversionTypes[2]
       || k == ConversionTypes[3] || k == ConversionTypes[4] || k == ConversionTypes[5]);
    k in ConversionTypes
  }

  /** `getConversionValue`: the table value for the five listed types, and
      the default 10 otherwise (the `|| 10` fallback). */
  function GetConversionValue(k: ButtonType): (v: nat)
    ensures v >= 10
    ensures v == 10 <==> k !in {HtpProApp, Platform, EbookCourse, Youtube, Telegram}
    ensures v <= 100 && (v == 100 <==> k == HtpProApp)
  {
    var values := map[HtpProApp := 100, Platform := 80, EbookCourse := 60, Youtube := 20, Telegram := 30];
    if k in values && values[k] != 0 then values[k] else 10
  }

  /** The name the source gives each type in logged events. */
  function TypeName(k: ButtonType): string {
    match k
    case HtpProApp => "htp_pro_app"
    case Platform => "platform"
    case Youtube => "youtube"
    case EbookCourse => "ebook_course"
    case Telegram => "telegram"
    case Whatsapp => "whatsapp"
    case Instagram => "instagram"
    case HeroCta => "hero_cta"
    case AppButton => "app_button"
    case FinalCta => "final_cta"
    case Other => "other"
  }

  /** Where a click leads: the address, else `data-action`, else `unknown`. */
  function Destination(b: Button): (d: string)
    ensures d != []
    ensures b.href != [] ==> d == b.href
  {
    if b.href != "" then b.href else if b.action != "" then b.action else "unknown"
  }
}
