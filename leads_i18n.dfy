/**
 * The lead bot's message tables (kelajack-leads-bot/src/i18n.js): one table per language,
 * each entry a fixed text or a template over the call's extra arguments, and `t`, which falls
 * back to Russian for a language without a table.
 */
module LeadsI18n {
  import opened Opt

  /** A piece of a template literal: fixed text, or the text of the argument at `index`. */
  datatype Piece = Lit(text: string) | Arg(index: nat)

  /** A table entry: a string, or an arrow function building its text from the arguments. */
  datatype Entry = Str(text: string) | Fun(pieces: seq<Piece>)

  const LANGS: seq<string> := ["ru", "uz", "en"]

  /** The keys of the `ru` table, in the order the source lists them. */
  const RuKeys: seq<string> := [
    "choose_lang", "ru", "uz", "en", "ask_child_name", "ask_age", "ask_district", "ask_phone",
    "consent", "invalid_name", "invalid_age", "invalid_phone", "done_user", "admin_new",
    "admin_menu", "admin_stats", "admin_export", "admin_ok", "admin_marked", "myid"
  ]

  /** The entry of a key of the `ru` table. */
  function RuEntry(key: string): Entry
    requires key in RuKeys
  {
    if key == "choose_lang" then Str("Выберите язык:")
    else if key == "ru" then Str("Русский язык")
    else if key == "uz" then Str("O’zbek tili")
    else if key == "en" then Str("English language")
    else if key == "ask_child_name" then Str("Введите ФИО (ребёнка):")
    else if key == "ask_age" then Str("Сколько лет ребёнку? (цифрой)")
    else if key == "ask_district" then Str("В каком районе проживаете? (можно написать текстом или выбрать кнопку)")
    else if key == "ask_phone" then Str("Номер телефона для обратной связи.\nМожно нажать кнопку «📲 Отправить мой номер» или ввести вручную.")
    else if key == "consent" then Str("Отправляя данные, вы даёте согласие на обработку контактной информации для связи учебного центра.")
    else if key == "invalid_name" then Str("Пожалуйста, введите ФИО (минимум 3 символа).")
    else if key == "invalid_age" then Str("Введите возраст цифрой (например: 9).")
    else if key == "invalid_phone" then Str("Похоже, номер некорректный. Пример: +998901234567")
    else if key == "done_user" then Fun([Lit("Спасибо! Заявка принята ✅\n"), Arg(0), Lit(" свяжется с вами в ближайшее время.\nНомер заявки: #"), Arg(1)])
    else if key == "admin_new" then Fun([Lit("🆕 Новая заявка ("), Arg(0), Lit(")")])
    else if key == "admin_menu" then Str("Админ-панель:")
    else if key == "admin_stats" then Str("📊 Статистика")
    else if key == "admin_export" then Str("📥 Скачать Excel")
    else if key == "admin_ok" then Str("✅ Обработано")
    else if key == "admin_marked" then Str("Отмечено как обработано ✅")
    else if key == "myid" then Fun([Lit("Ваш Telegram ID: "), Arg(0)])
    else Str([])
  }

  /** The keys of the `uz` table, in the order the source lists them. */
  const UzKeys: seq<string> := [
    "choose_lang", "ru", "uz", "en", "ask_child_name", "ask_age", "ask_district", "ask_phone",
    "consent", "invalid_name", "invalid_age", "invalid_phone", "done_user", "admin_new",
    "admin_menu", "admin_stats", "admin_export", "admin_ok", "admin_marked", "myid"
  ]

  /** The entry of a key of the `uz` table. */
  function UzEntry(key: string): Entry
    requires key in UzKeys
  {
    if key == "choose_lang" then Str("Tilni tanlang:")
    else if key == "ru" then Str("Русский язык")
    else if key == "uz" then Str("O’zbek tili")
    else if key == "en" then Str("English language")
    else if key == "ask_child_name" then Str("Bolaning F.I.Sh ni kiriting:")
    else if key == "ask_age" then Str("Bola necha yoshda? (raqam bilan)")
    else if key == "ask_district" then Str("Qaysi tumanda yashaysiz? (matn bilan yozish yoki tugma tanlash mumkin)")
    else if key == "ask_phone" then Str("Aloqa uchun telefon raqam.\n«📲 Raqamni yuborish» tugmasini bosing yoki qo‘lda kiriting.")
    else if key == "consent" then Str("Ma’lumot yuborish orqali siz o‘quv markazi bog‘lanishi uchun aloqa ma’lumotlarini qayta ishlashga rozilik bildirasiz.")
    else if key == "invalid_name" then Str("Iltimos, F.I.Sh ni kiriting (kamida 3 ta belgi).")
    else if key == "invalid_age" then Str("Yoshni raqam bilan kiriting (masalan: 9).")
    else if key == "invalid_phone" then Str("Telefon raqami noto‘g‘ri ko‘rinadi. Misol: +998901234567")
    else if key == "done_user" then Fun([Lit("Rahmat! Ariza qabul qilindi ✅\n"), Arg(0), Lit(" siz bilan tez orada bog‘lanadi.\nAriza raqami: #"), Arg(1)])
    else if key == "admin_new" then Fun([Lit("🆕 Yangi ariza ("), Arg(0), Lit(")")])
    else if key == "admin_menu" then Str("Admin panel:")
    else if key == "admin_stats" then Str("📊 Statistika")
    else if key == "admin_export" then Str("📥 Excel yuklab olish")
    else if key == "admin_ok" then Str("✅ Yakunlandi")
    else if key == "admin_marked" then Str("Yakunlandi deb belgilandi ✅")
    else if key == "myid" then Fun([Lit("Sizning Telegram ID: "), Arg(0)])
    else Str([])
  }

  /** The keys of the `en` table, in the order the source lists them. */
  const EnKeys: seq<string> := [
    "choose_lang", "ru", "uz", "en", "ask_child_name", "ask_age", "ask_district", "ask_phone",
    "consent", "invalid_name", "invalid_age", "invalid_phone", "done_user", "admin_new",
    "admin_menu", "admin_stats", "admin_export", "admin_ok", "admin_marked", "myid"
  ]

  /** The entry of a key of the `en` table. */
  function EnEntry(key: string): Entry
    requires key in EnKeys
  {
    if key == "choose_lang" then Str("Choose language:")
    else if key == "ru" then Str("Русский язык")
    else if key == "uz" then Str("O’zbek tili")
    else if key == "en" then Str("English language")
    else if key == "ask_child_name" then Str("Enter the child’s full name:")
    else if key == "ask_age" then Str("How old is the child? (number)")
    else if key == "ask_district" then Str("Which district do you live in? (type or pick a button)")
    else if key == "ask_phone" then Str("Phone number for a call back.\nUse «📲 Send my number» button or type it.")
    else if key == "consent" then Str("By sending this, you consent to processing contact info for the training center to reach you.")
    else if key == "invalid_name" then Str("Please enter a valid name (min 3 characters).")
    else if key == "invalid_age" then Str("Enter age as a number (e.g., 9).")
    else if key == "invalid_phone" then Str("Phone looks invalid. Example: +998901234567")
    else if key == "done_user" then Fun([Lit("Thanks! Your request is accepted ✅\n"), Arg(0), Lit(" will contact you soon.\nRequest ID: #"), Arg(1)])
    else if key == "admin_new" then Fun([Lit("🆕 New request ("), Arg(0), Lit(")")])
    else if key == "admin_menu" then Str("Admin panel:")
    else if key == "admin_stats" then Str("📊 Stats")
    else if key == "admin_export" then Str("📥 Download Excel")
    else if key == "admin_ok" then Str("✅ Done")
    else if key == "admin_marked" then Str("Marked as done ✅")
    else if key == "myid" then Fun([Lit("Your Telegram ID: "), Arg(0)])
    else Str([])
  }

  /** An argument as a template literal writes it; a missing one is `undefined`. */
  function ArgText(args: seq<string>, i: nat): string {
    if i < |args| then args[i] else "undefined"
  }

  /** The text a template builds from the arguments. */
  function Fill(pieces: seq<Piece>, args: seq<string>): string
    decreases |pieces|
  {
    if pieces == [] then []
    else (match pieces[0] case Lit(s) => s case Arg(i) => ArgText(args, i)) + Fill(pieces[1..], args)
  }

  /** `T[lang] ? lang : "ru"`: the language whose table `t` reads. */
  function TableLang(lang: string): (l: string)
    ensures l in LANGS
    ensures l == lang || l == "ru"
  {
    if lang in LANGS then lang else "ru"
  }

  /** The keys of the table of a language that has one. */
  function KeysOf(l: string): seq<string>
    requires l in LANGS
  {
    if l == "ru" then RuKeys else if l == "uz" then UzKeys else EnKeys
  }

  /** `t(lang, key, ...args)`: the entry of the key in the chosen table, called with the
      arguments when it is a function; `None` is `undefined`, for a key the table lacks. */
  function Tr(lang: string, key: string, args: seq<string>): (r: Option<string>)
    ensures r.Some? <==> key in KeysOf(TableLang(lang))
  {
    var l := TableLang(lang);
    if key !in KeysOf(l) then None
    else
      var entry := if l == "ru" then RuEntry(key) else if l == "uz" then UzEntry(key) else EnEntry(key);
      match entry
      case Str(s) => Some(s)
      case Fun(pieces) => Some(Fill(pieces, args))
  }

  /** The three tables define the same keys, in the same order, each once. */
  lemma SameKeys()
    ensures RuKeys == UzKeys == EnKeys
    ensures forall i, j :: 0 <= i < j < |RuKeys| ==> RuKeys[i] != RuKeys[j]
  {
  }

  /** A language without a table reads the Russian one; a key that Russian has is found in
      every language. */
  lemma TrFallback(lang: string, key: string, args: seq<string>)
    ensures lang !in LANGS ==> Tr(lang, key, args) == Tr("ru", key, args)
    ensures key in RuKeys ==> Tr(lang, key, args).Some?
  {
    SameKeys();
    assert key in RuKeys ==> key in (set k | k in RuKeys);
  }

  /** Arguments beyond the ones a template reads do not change its text. */
  lemma {:induction false} FillExtraArgs(pieces: seq<Piece>, args: seq<string>, extra: seq<string>)
    requires forall k :: 0 <= k < |pieces| && pieces[k].Arg? ==> pieces[k].index < |args|
    ensures Fill(pieces, args + extra) == Fill(pieces, args)
    decreases |pieces|
  {
    if pieces != [] {
      FillExtraArgs(pieces[1..], args, extra);
      if pieces[0].Arg? {
        assert (args + extra)[pieces[0].index] == args[pieces[0].index];
      }
    }
  }

  /** A text entry ignores the arguments. */
  lemma TrText()
    ensures Tr("en", "admin_menu", ["x"]) == Some("Admin panel:")
  {
  }

  /** A template splices the arguments in. */
  lemma TrTemplate(name: string)
    ensures Tr("en", "admin_new", [name]) == Some("🆕 New request (" + name + ")")
  {
    var p := [Lit("🆕 New request ("), Arg(0), Lit(")")];
    assert EnEntry("admin_new") == Fun(p);
    assert p[1..] == [Arg(0), Lit(")")] && p[1..][1..] == [Lit(")")] && p[1..][1..][1..] == [];
    assert Fill(p[1..][1..], [name]) == ")";
    assert Fill(p[1..], [name]) == name + ")";
    assert Fill(p, [name]) == "🆕 New request (" + (name + ")");
    assert TableLang("en") == "en";
    assert "admin_new" in KeysOf("en");
    assert Tr("en", "admin_new", [name]) == Some(Fill(p, [name]));
    assert "🆕 New request (" + (name + ")") == "🆕 New request (" + name + ")";
  }

  /** An unknown language reads Russian, and a missing argument is written `undefined`. */
  lemma TrMissingArg()
    ensures Tr("de", "myid", []) == Some("Ваш Telegram ID: undefined")
  {
    var p := [Lit("Ваш Telegram ID: "), Arg(0)];
    assert RuEntry("myid") == Fun(p);
    assert p[1..] == [Arg(0)] && p[1..][1..] == [];
    assert Fill(p, []) == "Ваш Telegram ID: " + "undefined";
    assert TableLang("de") == "ru";
    assert "myid" in KeysOf("ru");
    assert Tr("de", "myid", []) == Some(Fill(p, []));
    assert "Ваш Telegram ID: " + "undefined" == "Ваш Telegram ID: undefined";
  }

  /** A key no table has gives `undefined`. */
  lemma TrMissingKey()
    ensures Tr("ru", "missing", []) == None
  {
  }
}
