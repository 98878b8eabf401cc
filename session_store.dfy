/**
 * ai-health's chat-memory store (ai-health/shared/memory/store.js): one JSON file per user
 * and profile holding a running summary, the most recent messages and a timestamp. The
 * directory is a map from file name to contents; a file that does not parse is `Malformed`.
 */
module SessionStore {
  import opened Opt

  const MaxMsgs: nat := 18
  const TtlHours: nat := 48
  const MsPerHour: nat := 3600000
  const SoftLimitChars: nat := 6000

  /** The four profiles resetAllProfiles clears. */
  const Profiles: seq<string> := ["general", "pregnancy", "mencare", "mamacare"]

  datatype Msg = Msg(role: string, content: string)

  datatype Session = Session(summary: string, messages: seq<Msg>, updatedAt: int)

  /** The contents of a session file that parses: an absent or falsy summary is "", a
      `messages` that is not an array is `None`, an absent or zero timestamp is 0. */
  datatype Json = Json(summary: string, messages: Option<seq<Msg>>, updatedAt: int)

  datatype File = Malformed | Parsed(json: Json)

  const EmptySession := Session("", [], 0)

  // ───────────── filePath ─────────────

  predicate IsSafeChar(c: char) {
    ('a' <= c <= 'z') || ('A' <= c <= 'Z') || ('0' <= c <= '9') || c == '_' || c == '-'
  }

  /** `replace(/[^a-z0-9_-]/gi, '_')`. */
  function Sanitize(s: string): (r: string)
    ensures |r| == |s|
    ensures forall i :: 0 <= i < |s| ==> IsSafeChar(r[i]) && (IsSafeChar(s[i]) ==> r[i] == s[i])
  {
    seq(|s|, i requires 0 <= i < |s| => if IsSafeChar(s[i]) then s[i] else '_')
  }

  /** Sanitising twice is sanitising once, and a safe name is left alone. */
  lemma SanitizeIdempotent(s: string)
    ensures Sanitize(Sanitize(s)) == Sanitize(s)
    ensures (forall i :: 0 <= i < |s| ==> IsSafeChar(s[i])) ==> Sanitize(s) == s
  {
  }

  /** `profile || 'general'`: a missing or empty profile is the general one. */
  function ProfileName(profile: Option<string>): string {
    if profile.None? || profile.value == [] then "general" else profile.value
  }

  /** `filePath`, without the directory: `<user>__<profile>.json`, both parts sanitised. */
  function FileKey(userId: string, profile: Option<string>): string {
    Sanitize(userId) + "__" + Sanitize(ProfileName(profile)) + ".json"
  }

  predicate AllDigits(s: string) {
    forall i :: 0 <= i < |s| ==> '0' <= s[i] <= '9'
  }

  /** Telegram ids are digit strings: two different ids never share a file for one profile. */
  lemma FileKeyDistinct(u1: string, u2: string, profile: Option<string>)
    requires AllDigits(u1) && AllDigits(u2) && u1 != u2
    ensures FileKey(u1, profile) != FileKey(u2, profile)
  {
    SanitizeIdempotent(u1);
    SanitizeIdempotent(u2);
    var tail := "__" + Sanitize(ProfileName(profile)) + ".json";
    assert FileKey(u1, profile) == u1 + tail;
    assert FileKey(u2, profile) == u2 + tail;
    if |u1| == |u2| {
      assert (u1 + tail)[..|u1|] == u1;
      assert (u2 + tail)[..|u1|] == u2;
    }
  }

  // ───────────── sessions on disk ─────────────

  /** `getSession`: the defaults for a missing or malformed file, else its fields. */
  function ReadSession(files: map<string, File>, key: string): (s: Session)
    ensures key !in files || files[key].Malformed? ==> s == EmptySession
  {
    if key !in files || files[key].Malformed? then EmptySession
    else
      var j := files[key].json;
      Session(j.summary, j.messages.GetOr([]), j.updatedAt)
  }

  /** `saveSession`: what ends up in the file; a zero timestamp becomes `now`. */
  function Written(s: Session, now: int): File {
    Parsed(Json(s.summary, Some(s.messages), if s.updatedAt == 0 then now else s.updatedAt))
  }

  /** Reading back a written session gives the session, stamped with `now` if it had no time. */
  lemma ReadWritten(files: map<string, File>, key: string, s: Session, now: int)
    ensures ReadSession(files[key := Written(s, now)], key)
      == s.(updatedAt := if s.updatedAt == 0 then now else s.updatedAt)
  {
  }

  /** `isExpired` of a session read back: never without a timestamp; otherwise whether more
      than TtlHours have passed since it. */
  function Expired(s: Session, now: int): bool {
    if s.updatedAt == 0 then false else now - s.updatedAt > TtlHours * MsPerHour
  }

  /** `messages.slice(-n)` once the list is longer than `n`. */
  function LastN(ms: seq<Msg>, n: nat): seq<Msg> {
    if |ms| > n then ms[|ms| - n..] else ms
  }

  function TotalLen(ms: seq<Msg>): nat
    decreases |ms|
  {
    if ms == [] then 0 else TotalLen(ms[..|ms| - 1]) + |ms[|ms| - 1].content|
  }

  /** Total length is additive over concatenation. */
  lemma {:induction false} TotalLenAppend(a: seq<Msg>, b: seq<Msg>)
    ensures TotalLen(a + b) == TotalLen(a) + TotalLen(b)
    decreases |b|
  {
    if b == [] {
      assert a + b == a;
    } else {
      var n := |b| - 1;
      assert (a + b)[..|a + b| - 1] == a + b[..n];
      assert (a + b)[|a + b| - 1] == b[n];
      TotalLenAppend(a, b[..n]);
    }
  }

  /** Dropping the oldest messages never raises the total length. */
  lemma LastNShorter(ms: seq<Msg>, n: nat)
    ensures TotalLen(LastN(ms, n)) <= TotalLen(ms)
  {
    if |ms| > n {
      assert ms == ms[..|ms| - n] + ms[|ms| - n..];
      TotalLenAppend(ms[..|ms| - n], ms[|ms| - n..]);
    }
  }

  /** The store's directory of session files. */
  class Store {
    var files: map<string, File>

    constructor (files: map<string, File>)
      ensures this.files == files
    {
      this.files := files;
    }

    function GetSession(userId: string, profile: Option<string>): (s: Session)
      reads this
      ensures FileKey(userId, profile) !in files ==> s == EmptySession
    {
      ReadSession(files, FileKey(userId, profile))
    }

    /** `append`: push the message, keep only the last MaxMsgs, stamp, save and return. */
    method Append(userId: string, profile: Option<string>, role: string, content: Option<string>, now: int)
      returns (s: Session)
      modifies this
      ensures var before := old(ReadSession(files, FileKey(userId, profile)));
        var all := before.messages + [Msg(role, content.GetOr(""))];
        s.summary == before.summary && s.updatedAt == now && s.messages == LastN(all, MaxMsgs)
        && |s.messages| == (if |all| > MaxMsgs then MaxMsgs else |all|)
        && s.messages[|s.messages| - 1] == Msg(role, content.GetOr(""))
        && all == all[..|all| - |s.messages|] + s.messages
      ensures files == old(files)[FileKey(userId, profile) := Written(s, now)]
      ensures now != 0 ==> forall later :: later - now <= TtlHours * MsPerHour ==> !IsExpired(userId, profile, later)
    {
      var key := FileKey(userId, profile);
      s := ReadSession(files, key);
      var msgs := s.messages + [Msg(role, content.GetOr(""))];
      if |msgs| > MaxMsgs {
        msgs := msgs[|msgs| - MaxMsgs..];
      }
      s := s.(messages := msgs, updatedAt := now);
      files := files[key := Written(s, now)];
      if now != 0 {
        forall later | later - now <= TtlHours * MsPerHour
          ensures !IsExpired(userId, profile, later)
        {
          FreshNotExpired(old(files), key, s, now, later);
        }
      }
    }

    /** `setSummary`: replace the summary and the timestamp, nothing else. */
    method SetSummary(userId: string, profile: Option<string>, summary: Option<string>, now: int)
      returns (s: Session)
      modifies this
      ensures var before := old(ReadSession(files, FileKey(userId, profile)));
        s == before.(summary := summary.GetOr(""), updatedAt := now)
      ensures files == old(files)[FileKey(userId, profile) := Written(s, now)]
      ensures now != 0 ==> forall later :: later - now <= TtlHours * MsPerHour ==> !IsExpired(userId, profile, later)
    {
      var key := FileKey(userId, profile);
      s := ReadSession(files, key);
      s := s.(summary := summary.GetOr(""), updatedAt := now);
      files := files[key := Written(s, now)];
      if now != 0 {
        forall later | later - now <= TtlHours * MsPerHour
          ensures !IsExpired(userId, profile, later)
        {
          FreshNotExpired(old(files), key, s, now, later);
        }
      }
    }

    /** `reset`: remove the file if it is there. */
    method Reset(userId: string, profile: Option<string>)
      modifies this
      ensures files == old(files) - {FileKey(userId, profile)}
    {
      var key := FileKey(userId, profile);
      if key in files {
        files := files - {key};
      }
    }

    /** `resetAllProfiles`: reset the four named profiles of one user. */
    method ResetAllProfiles(userId: string)
      modifies this
      ensures files == old(files) - set p | p in Profiles :: FileKey(userId, Some(p))
    {
      var i := 0;
      while i < |Profiles|
        invariant 0 <= i <= |Profiles|
        invariant files == old(files) - set p | p in Profiles[..i] :: FileKey(userId, Some(p))
      {
        assert Profiles[..i + 1] == Profiles[..i] + [Profiles[i]];
        Reset(userId, Some(Profiles[i]));
        i := i + 1;
      }
      assert Profiles[..i] == Profiles;
    }

    /** `shouldSummarize`: the messages' total length is over the soft limit. */
    function ShouldSummarize(userId: string, profile: Option<string>, softLimit: nat): (r: bool)
      reads this
      ensures FileKey(userId, profile) !in files ==> !r
    {
      TotalLen(GetSession(userId, profile).messages) > softLimit
    }

    /** `isExpired`: never for a session without a timestamp; otherwise whether more than
        TtlHours have passed. */
    function IsExpired(userId: string, profile: Option<string>, now: int): (r: bool)
      reads this
      ensures r ==> GetSession(userId, profile).updatedAt != 0
      ensures FileKey(userId, profile) !in files ==> !r
    {
      Expired(GetSession(userId, profile), now)
    }
  }

  /** After resetting all profiles, each of them reads back as an empty session, and every
      other file is untouched. */
  lemma ResetAllClears(files: map<string, File>, userId: string, key: string)
    ensures var files' := files - set p | p in Profiles :: FileKey(userId, Some(p));
      (forall p :: p in Profiles ==> ReadSession(files', FileKey(userId, Some(p))) == EmptySession)
      && ((forall p :: p in Profiles ==> key != FileKey(userId, Some(p))) ==> ReadSession(files', key) == ReadSession(files, key))
  {
  }

  /** A session saved at a non-zero `now` (as append and setSummary do) reads back as not
      expired at any time up to TtlHours later. */
  lemma FreshNotExpired(files: map<string, File>, key: string, s: Session, now: int, later: int)
    requires s.updatedAt == now && now != 0
    requires later - now <= TtlHours * MsPerHour
    ensures !Expired(ReadSession(files[key := Written(s, now)], key), later)
    ensures later - now < 0 || Expired(ReadSession(files[key := Written(s, now)], key), now + TtlHours * MsPerHour + 1)
  {
    ReadWritten(files, key, s, now);
  }
}
