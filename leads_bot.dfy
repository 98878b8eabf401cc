/**
 * The lead bot's intake wizard (kelajack-leads-bot/src/index.js): a draft per Telegram user
 * moves from choosing a language through the child's name, age and district to a phone
 * number, and then becomes a lead. The SQLite tables of drafts and leads are fields of the
 * bot; a lead's id is the next value of a counter (the table's autoincrement) and its
 * creation time is a parameter.
 */
module LeadsBot {
  import opened Opt
  import opened Text
  import opened LeadsUtils
  import LeadsI18n

  /** The draft's `step` column. */
  datatype Step = LangStep | ChildNameStep | AgeStep | DistrictStep | PhoneStep

  /** The draft's `payload` object; an absent field is `None`. */
  datatype Payload = Payload(childName: Option<string>, age: Option<int>, district: Option<string>)

  datatype Draft = Draft(step: Step, lang: string, payload: Payload)

  datatype Lead = Lead(id: nat, createdAt: string, userId: int, username: Option<string>, lang: string,
                       childName: string, age: int, district: string, phone: string, status: string)

  const EmptyPayload := Payload(None, None, None)

  /** The draft `/start` and the restart buttons leave behind. */
  const FreshDraft := Draft(LangStep, "ru", EmptyPayload)

  /** The texts that restart the wizard, compared after cleaning. */
  const RestartTexts: seq<string> := ["↩️ Начать заново", "↩️ Qayta boshlash", "↩️ Restart", "/start"]

  /** JavaScript truthiness of an optional string. */
  predicate Truthy(s: Option<string>) {
    s.Some? && s.value != []
  }

  /** `ctx.message?.text ? cleanText(ctx.message.text) : null`. */
  function CleanedText(text: Option<string>): Option<string> {
    if Truthy(text) then Some(CleanText(text)) else None
  }

  /** The phone the last step reads: a shared contact's number when it has one, else the text. */
  function PhoneOf(contact: Option<string>, text: Option<string>): Option<string> {
    if Truthy(contact) then NormalizePhone(contact)
    else if Truthy(text) then NormalizePhone(text)
    else None
  }

  /** A phone the last step accepts is in the normal form. */
  lemma PhoneOfNormal(contact: Option<string>, text: Option<string>)
    requires PhoneOf(contact, text).Some?
    ensures IsNormalPhone(PhoneOf(contact, text).value)
  {
    if Truthy(contact) {
      NormalizeGivesNormal(contact);
    } else {
      NormalizeGivesNormal(text);
    }
  }

  /** `isAdmin`: a sender id that is present, not 0, and among the configured admin ids. */
  function IsAdmin(fromId: Option<int>, adminIds: seq<real>): bool {
    fromId.Some? && fromId.value != 0 && fromId.value as real in adminIds
  }

  /** With the admin list read from the environment, exactly the listed ids are admins, and
      every admin id is positive. */
  lemma IsAdminOfList(ids: seq<nat>, id: int)
    requires forall i :: 0 <= i < |ids| ==> ids[i] > 0
    ensures var admins := ParseAdminIds(Some(JoinWith(NatStrings(ids), ',')));
      IsAdmin(Some(id), admins) <==> id in ids
    ensures forall raw :: IsAdmin(Some(id), ParseAdminIds(raw)) ==> id > 0
  {
    ParseAdminIdsRoundTrip(ids);
    var admins := AsReals(ids);
    if id in ids {
      var k :| 0 <= k < |ids| && ids[k] == id;
      assert admins[k] == id as real;
    }
    if id as real in admins {
      var k :| 0 <= k < |admins| && admins[k] == id as real;
      assert ids[k] == id;
    }
  }

  // ───────────── the wizard's steps ─────────────

  /** The step after each step of the form. */
  function Succ(s: Step): Step {
    match s
    case LangStep => ChildNameStep
    case ChildNameStep => AgeStep
    case AgeStep => DistrictStep
    case DistrictStep => PhoneStep
    case PhoneStep => PhoneStep
  }

  /** A payload field, when present, holds what its step accepted. */
  predicate PayloadOk(p: Payload) {
    (p.childName.Some? ==> IsValidName(p.childName) && CleanText(p.childName) == p.childName.value)
    && (p.age.Some? ==> 1 <= p.age.value <= 99)
    && (p.district.Some? ==> p.district.value != [])
  }

  /** A draft's language has a table, its payload fields are valid, and every step after a
      field's step has that field. */
  predicate DraftOk(d: Draft) {
    d.lang in LeadsI18n.LANGS && PayloadOk(d.payload)
    && (d.step in {AgeStep, DistrictStep, PhoneStep} ==> d.payload.childName.Some?)
    && (d.step in {DistrictStep, PhoneStep} ==> d.payload.age.Some?)
    && (d.step == PhoneStep ==> d.payload.district.Some?)
  }

  /** A stored lead: a valid name, an age of 1 to 99, a district, a normalised phone, status "new". */
  predicate LeadOk(l: Lead) {
    l.lang in LeadsI18n.LANGS && IsValidName(Some(l.childName)) && 1 <= l.age <= 99 && l.district != []
    && IsNormalPhone(l.phone) && l.status == "new"
  }

  /** The lead a complete draft yields, with a normalised phone, is a valid lead. */
  lemma NewLeadOk(d: Draft, lead: Lead)
    requires DraftOk(d) && d.step == PhoneStep
    requires lead.lang == d.lang && lead.status == "new" && IsNormalPhone(lead.phone)
    requires lead.childName == d.payload.childName.value && lead.age == d.payload.age.value
    requires lead.district == d.payload.district.value
    ensures LeadOk(lead)
  {
  }

  /** What a text message does to a draft in one of the first four steps: the new draft, or
      `None` when the text is refused (or the draft waits for a language). */
  function TextStep(d: Draft, text: Option<string>): (r: Option<Draft>)
    requires d.step != PhoneStep
    ensures r.Some? ==> r.value.step == Succ(d.step) && r.value.lang == d.lang
    ensures d.step == LangStep ==> r.None?
  {
    match d.step
    case ChildNameStep =>
      if !Truthy(text) || !IsValidName(text) then None
      else Some(d.(step := AgeStep, payload := d.payload.(childName := text)))
    case AgeStep =>
      var age := ParseAge(text);
      if age.None? then None
      else Some(d.(step := DistrictStep, payload := d.payload.(age := age)))
    case DistrictStep =>
      if !Truthy(text) || |text.value| < 2 then None
      else Some(d.(step := PhoneStep, payload := d.payload.(district := text)))
    case LangStep => None
  }

  /** A step that accepts the text keeps the draft valid, and fills exactly its own field. */
  lemma TextStepOk(d: Draft, text: Option<string>)
    requires d.step != PhoneStep && DraftOk(d)
    requires text.None? || CleanText(text) == text.value
    ensures TextStep(d, text).Some? ==> DraftOk(TextStep(d, text).value)
    ensures TextStep(d, text).Some? ==> var p := TextStep(d, text).value.payload;
      (d.step == ChildNameStep ==> p == d.payload.(childName := text))
      && (d.step == AgeStep ==> p == d.payload.(age := ParseAge(text)))
      && (d.step == DistrictStep ==> p == d.payload.(district := text))
  {
    if d.step == ChildNameStep && text.Some? {
      CleanTextFacts(text);
    }
  }

  /** The draft store and the leads table. */
  /** The bot's state is valid: drafts are valid; leads are valid and numbered in increasing
      order below the counter. */
  ghost predicate StateOk(drafts: map<int, Draft>, leads: seq<Lead>, nextLeadId: nat) {
    (forall u :: u in drafts ==> DraftOk(drafts[u]))
    && (forall i :: 0 <= i < |leads| ==> LeadOk(leads[i]) && leads[i].id < nextLeadId)
    && (forall i, j :: 0 <= i < j < |leads| ==> leads[i].id < leads[j].id)
  }

  /** Storing a valid lead under the counter, bumping the counter and deleting a draft keeps
      the state valid. */
  lemma StoreLeadOk(drafts: map<int, Draft>, leads: seq<Lead>, nextLeadId: nat, userId: int, lead: Lead)
    requires StateOk(drafts, leads, nextLeadId)
    requires LeadOk(lead) && lead.id == nextLeadId
    ensures StateOk(drafts - {userId}, leads + [lead], nextLeadId + 1)
  {
    var leads' := leads + [lead];
    forall i | 0 <= i < |leads'|
      ensures LeadOk(leads'[i]) && leads'[i].id < nextLeadId + 1
    {
      if i < |leads| { assert leads'[i] == leads[i]; }
    }
    forall i, j | 0 <= i < j < |leads'|
      ensures leads'[i].id < leads'[j].id
    {
      assert leads'[i] == leads[i];
      if j < |leads| { assert leads'[j] == leads[j]; }
    }
  }

  class Bot {
    var drafts: map<int, Draft>
    var leads: seq<Lead>
    var nextLeadId: nat

    /** Drafts are valid; leads are valid and numbered in increasing order below the counter. */
    ghost predicate Valid()
      reads this
    {
      StateOk(drafts, leads, nextLeadId)
    }

    constructor ()
      ensures Valid() && drafts == map[] && leads == [] && nextLeadId == 1
    {
      drafts := map[];
      leads := [];
      nextLeadId := 1;
    }

    /** `/start`: replace the user's draft by a fresh one. */
    method Start(userId: int)
      requires Valid()
      modifies this
      ensures Valid()
      ensures drafts == old(drafts)[userId := FreshDraft]
      ensures leads == old(leads) && nextLeadId == old(nextLeadId)
    {
      drafts := drafts - {userId};
      drafts := drafts[userId := FreshDraft];
    }

    /** A language button: move to the name step in that language, keeping the payload
        (an empty one when there is no draft), whatever the current step. */
    method PickLang(userId: int, lang: string)
      requires Valid() && lang in LeadsI18n.LANGS
      modifies this
      ensures Valid()
      ensures var payload := if userId in old(drafts) then old(drafts)[userId].payload else EmptyPayload;
        drafts == old(drafts)[userId := Draft(ChildNameStep, lang, payload)]
      ensures leads == old(leads) && nextLeadId == old(nextLeadId)
    {
      var payload := EmptyPayload;
      if userId in drafts {
        payload := drafts[userId].payload;
      }
      drafts := drafts[userId := Draft(ChildNameStep, lang, payload)];
    }

    /** A district button: only in the district step; "other" asks for text and changes
        nothing; any other value is stored and the draft moves to the phone step. */
    method PickDistrict(userId: int, value: string)
      requires Valid() && value != []
      modifies this
      ensures Valid()
      ensures if userId !in old(drafts) || old(drafts)[userId].step != DistrictStep || value == "other"
        then drafts == old(drafts)
        else var d := old(drafts)[userId];
          drafts == old(drafts)[userId := Draft(PhoneStep, d.lang, d.payload.(district := Some(value)))]
      ensures leads == old(leads) && nextLeadId == old(nextLeadId)
    {
      if userId !in drafts || drafts[userId].step != DistrictStep {
        return;
      }
      var draft := drafts[userId];
      var lang := if draft.lang == [] then "ru" else draft.lang;
      if value == "other" {
        return;
      }
      var payload := draft.payload.(district := Some(value));
      drafts := drafts[userId := Draft(PhoneStep, lang, payload)];
    }

    /** One of the first four steps reads the cleaned text: a refused text changes nothing,
        an accepted one is stored in the step's field and the draft moves on. */
    method ReadText(userId: int, ct: Option<string>)
      requires Valid() && userId in drafts && drafts[userId].step != PhoneStep
      requires ct.None? || CleanText(ct) == ct.value
      modifies this
      ensures Valid()
      ensures var d := old(drafts)[userId];
        drafts == if TextStep(d, ct).Some? then old(drafts)[userId := TextStep(d, ct).value] else old(drafts)
      ensures leads == old(leads) && nextLeadId == old(nextLeadId)
    {
      var draft := drafts[userId];
      var lang := if draft.lang == [] then "ru" else draft.lang;
      TextStepOk(draft, ct);
      if draft.step == ChildNameStep {
        if !Truthy(ct) || !IsValidName(ct) {
          return;
        }
        var payload := draft.payload.(childName := ct);
        drafts := drafts[userId := Draft(AgeStep, lang, payload)];
      } else if draft.step == AgeStep {
        var age := ParseAge(ct);
        if age.None? {
          return;
        }
        var payload := draft.payload.(age := age);
        drafts := drafts[userId := Draft(DistrictStep, lang, payload)];
      } else if draft.step == DistrictStep {
        if !Truthy(ct) || |ct.value| < 2 {
          return;
        }
        var payload := draft.payload.(district := ct);
        drafts := drafts[userId := Draft(PhoneStep, lang, payload)];
      }
    }

    /** The phone step: no phone changes nothing; a phone stores the lead under the next id
        and deletes the draft. */
    method SubmitPhone(userId: int, ct: Option<string>, contact: Option<string>, username: Option<string>, now: string)
      requires Valid() && userId in drafts && drafts[userId].step == PhoneStep
      modifies this
      ensures Valid()
      ensures var d := old(drafts)[userId];
        var phone := PhoneOf(contact, ct);
        if phone.None? then drafts == old(drafts) && leads == old(leads) && nextLeadId == old(nextLeadId)
        else (drafts == old(drafts) - {userId} && nextLeadId == old(nextLeadId) + 1
          && leads == old(leads) + [Lead(old(nextLeadId), now, userId, if Truthy(username) then username else None,
                                         d.lang, d.payload.childName.value, d.payload.age.value,
                                         d.payload.district.value, phone.value, "new")])
    {
      var draft := drafts[userId];
      var lang := if draft.lang == [] then "ru" else draft.lang;
      var phone := PhoneOf(contact, ct);
      if phone.None? {
        return;
      }
      PhoneOfNormal(contact, ct);
      var lead := Lead(nextLeadId, now, userId, if Truthy(username) then username else None,
                       lang, draft.payload.childName.value, draft.payload.age.value,
                       draft.payload.district.value, phone.value, "new");
      assert lang == draft.lang;
      NewLeadOk(draft, lead);
      StoreLeadOk(drafts, leads, nextLeadId, userId, lead);
      leads := leads + [lead];
      nextLeadId := nextLeadId + 1;
      drafts := drafts - {userId};
    }

    /** A message: ignored without a sender; a restart text gives a fresh draft; without a
        draft nothing happens; otherwise the current step reads the cleaned text, and the
        phone step, given a phone it can normalise, stores the lead and deletes the draft. */
    method OnMessage(fromId: Option<int>, text: Option<string>, contact: Option<string>,
                     username: Option<string>, now: string)
      requires Valid()
      modifies this
      ensures Valid()
      ensures var ct := CleanedText(text);
        if fromId.None? || fromId.value == 0 || (!(Truthy(ct) && ct.value in RestartTexts) && fromId.value !in old(drafts))
        then drafts == old(drafts) && leads == old(leads) && nextLeadId == old(nextLeadId)
        else if Truthy(ct) && ct.value in RestartTexts
        then drafts == old(drafts)[fromId.value := FreshDraft] && leads == old(leads) && nextLeadId == old(nextLeadId)
        else var d := old(drafts)[fromId.value];
          if d.step != PhoneStep then
            leads == old(leads) && nextLeadId == old(nextLeadId)
            && drafts == (if TextStep(d, ct).Some? then old(drafts)[fromId.value := TextStep(d, ct).value] else old(drafts))
          else if PhoneOf(contact, ct).None? then
            drafts == old(drafts) && leads == old(leads) && nextLeadId == old(nextLeadId)
          else
            drafts == old(drafts) - {fromId.value} && nextLeadId == old(nextLeadId) + 1
            && leads == old(leads) + [Lead(old(nextLeadId), now, fromId.value, if Truthy(username) then username else None,
                                           d.lang, d.payload.childName.value, d.payload.age.value,
                                           d.payload.district.value, PhoneOf(contact, ct).value, "new")]
    {
      if fromId.None? || fromId.value == 0 {
        return;
      }
      var userId := fromId.value;
      var ct := CleanedText(text);
      if Truthy(ct) && ct.value in RestartTexts {
        drafts := drafts - {userId};
        drafts := drafts[userId := FreshDraft];
        return;
      }
      if userId !in drafts {
        return;
      }
      if ct.Some? {
        CleanTextFacts(text);
      }
      if drafts[userId].step != PhoneStep {
        ReadText(userId, ct);
      } else {
        SubmitPhone(userId, ct, contact, username, now);
      }
    }
  }

  /** A word without white space is its own cleaned text. */
  lemma CleanWord(w: string)
    requires w != [] && forall i :: 0 <= i < |w| ==> !IsSpace(w[i])
    ensures CleanedText(Some(w)) == Some(w)
  {
    TrimmedFixed(w);
    CollapseFixed(w);
  }

  /** The name step accepts "Ali" and moves to the age step. */
  lemma WalkName()
    ensures TextStep(Draft(ChildNameStep, "uz", EmptyPayload), Some("Ali"))
      == Some(Draft(AgeStep, "uz", Payload(Some("Ali"), None, None)))
  {
    CleanWord("Ali");
    assert CleanText(Some("Ali")) == "Ali";
  }

  /** The age step accepts "7" and moves to the district step. */
  lemma WalkAge()
    ensures TextStep(Draft(AgeStep, "uz", Payload(Some("Ali"), None, None)), Some("7"))
      == Some(Draft(DistrictStep, "uz", Payload(Some("Ali"), Some(7), None)))
  {
    ParseAgeOfNat(7);
    assert NatToString(7) == "7";
  }

  /** The district step refuses one letter and accepts "Chilonzor". */
  lemma WalkDistrict()
    ensures var d := Draft(DistrictStep, "uz", Payload(Some("Ali"), Some(7), None));
      TextStep(d, Some("X")) == None
      && TextStep(d, Some("Chilonzor")) == Some(Draft(PhoneStep, "uz", Payload(Some("Ali"), Some(7), Some("Chilonzor"))))
  {
  }

  /** A shared contact's number in the normal form is the phone the lead gets. */
  lemma WalkPhone()
    ensures PhoneOf(Some("998901234567"), None) == Some("998901234567")
  {
    var p := "998901234567";
    assert p[0] != '+';
    assert forall i :: 0 <= i < |p| ==> IsDigit(p[i]);
    NormalPhoneFixed(p);
  }
}
