/** The browser-side session slot (src/lib/session.ts): one optional record under
    the localStorage key 'userSession', valid for 24 hours. Times are integer
    milliseconds since the epoch; the clock reading `now` is a parameter. */
module Session {
  import opened Common

  /** 24 hours in milliseconds. */
  const SessionDuration: int := 24 * 60 * 60 * 1000
  const MillisPerHour: int := 1000 * 60 * 60
  const MillisPerMinute: int := 1000 * 60

  datatype SessionData = SessionData(
    sessionToken: string,
    usuarioId: int,
    nombre: string,
    email: Option<string>,
    expiresAt: int)

  /** What the slot holds: a document that `JSON.parse` turns into session data, or
      text on which `JSON.parse` throws. */
  datatype Stored = Parsed(data: SessionData) | Unparsable

  /** The session `get()` returns for this slot content at time `now`. */
  function ValidSession(slot: Option<Stored>, now: int): (s: Option<SessionData>)
    ensures s.Some? <==> slot.Some? && slot.value.Parsed? && !(slot.value.data.expiresAt < now)
    ensures s.Some? ==> slot == Some(Parsed(s.value))
  {
    match slot
    case None => None
    case Some(Unparsable) => None
    case Some(Parsed(data)) => if data.expiresAt < now then None else Some(data)
  }

  /** The slot after `get()`: kept when it holds a valid session, emptied otherwise
      (an expired or unparsable record is removed; an empty slot stays empty). */
  function SlotAfterGet(slot: Option<Stored>, now: int): (after: Option<Stored>)
    ensures after == slot || after == None
    ensures after.Some? <==> ValidSession(slot, now).Some?
  {
    if ValidSession(slot, now).Some? then slot else None
  }

  /** The slot after `renew()`: the valid session with its expiry moved to
      now + 24 h, or an empty slot when there was no valid session. */
  function RenewedSlot(slot: Option<Stored>, now: int): (after: Option<Stored>)
  {
    match ValidSession(slot, now)
    case None => None
    case Some(data) => Some(Parsed(data.(expiresAt := now + SessionDuration)))
  }

  /** `create(...)`: a fresh session ending 24 h from now; the supplied token is used
      when it is non-empty, otherwise a generated one (generation is random and is
      passed in as `generatedToken`). */
  function Create(usuarioId: int, nombre: string, email: Option<string>,
                  sessionToken: Option<string>, generatedToken: string, now: int): (data: SessionData)
    ensures data.expiresAt == now + SessionDuration
    ensures data.sessionToken == if Truthy(sessionToken) then sessionToken.value else generatedToken
    ensures data.usuarioId == usuarioId && data.nombre == nombre && data.email == email
  {
    SessionData(if Truthy(sessionToken) then sessionToken.value else generatedToken,
                usuarioId, nombre, email, now + SessionDuration)
  }

  // ---------------------------------------------------------------------------
  // Time remaining
  // ---------------------------------------------------------------------------

  /** Whole hours and the remaining whole minutes in `diff` milliseconds, as
      `Math.floor(diff / 3600000)` and `Math.floor((diff % 3600000) / 60000)`. */
  function HoursMinutes(diff: nat): (hm: (nat, nat))
    ensures hm.1 < 60
    ensures hm.0 * MillisPerHour + hm.1 * MillisPerMinute <= diff
    ensures diff < hm.0 * MillisPerHour + (hm.1 + 1) * MillisPerMinute
  {
    (diff / MillisPerHour, (diff % MillisPerHour) / MillisPerMinute)
  }

  /** The JavaScript expressions, evaluated on reals, give the same two numbers. */
  lemma HoursMinutesAsWritten(diff: nat)
    ensures (diff as real / MillisPerHour as real).Floor == HoursMinutes(diff).0
    ensures ((diff % MillisPerHour) as real / MillisPerMinute as real).Floor == HoursMinutes(diff).1
  {
    FloorOfQuotient(diff, MillisPerHour);
    FloorOfQuotient(diff % MillisPerHour, MillisPerMinute);
  }

  /** "`H`h `M`m" when at least one hour remains, otherwise "`M`m". */
  function RemainingText(hours: nat, minutes: nat): (text: string)
    ensures text != [] && text[|text| - 1] == 'm'
  {
    if hours > 0 then NatToString(hours) + "h " + NatToString(minutes) + "m"
    else NatToString(minutes) + "m"
  }

  /** The text `getTimeRemaining` shows for `diff` milliseconds left. */
  function FormatRemaining(diff: nat): string
  {
    RemainingText(HoursMinutes(diff).0, HoursMinutes(diff).1)
  }

  /** Number of leading decimal digits of s. */
  function DigitRun(s: string): (k: nat)
    ensures k <= |s|
    ensures forall i :: 0 <= i < k ==> IsDigit(s[i])
    ensures k < |s| ==> !IsDigit(s[k])
    decreases |s|
  {
    if s != [] && IsDigit(s[0]) then 1 + DigitRun(s[1..]) else 0
  }

  lemma {:induction false} DigitRunOfNumber(digits: string, rest: string)
    requires forall i :: 0 <= i < |digits| ==> IsDigit(digits[i])
    requires rest != [] && !IsDigit(rest[0])
    ensures DigitRun(digits + rest) == |digits|
    decreases |digits|
  {
    if digits != [] {
      assert (digits + rest)[1..] == digits[1..] + rest;
      DigitRunOfNumber(digits[1..], rest);
    }
  }

  /** Reads a remaining-time text back into hours and minutes. */
  function ParseRemaining(text: string): Option<(nat, nat)>
  {
    var k := DigitRun(text);
    if k < |text| && text[k] == 'h' then
      var rest := text[k + 1..];
      if |rest| >= 2 && rest[0] == ' ' && rest[|rest| - 1] == 'm'
         && DigitRun(rest[1..]) == |rest| - 2
      then Some((ParseDigits(text[..k]), ParseDigits(rest[1..|rest| - 1])))
      else None
    else if k == |text| - 1 && text[k] == 'm' then Some((0, ParseDigits(text[..k])))
    else None
  }

  predicate AllDigits(s: string)
  {
    forall i :: 0 <= i < |s| ==> IsDigit(s[i])
  }

  /** The hours branch of ParseRemaining, for a text already split at its 'h'. */
  lemma ParseRemainingHours(text: string, k: nat)
    requires DigitRun(text) == k && k + 3 <= |text| && text[k] == 'h' && text[k + 1] == ' '
    requires text[|text| - 1] == 'm' && DigitRun(text[k + 2..]) == |text| - k - 3
    ensures ParseRemaining(text) == Some((ParseDigits(text[..k]), ParseDigits(text[k + 2..|text| - 1])))
  {
    var rest := text[k + 1..];
    assert rest[1..] == text[k + 2..] && rest[1..|rest| - 1] == text[k + 2..|text| - 1];
  }

  lemma HoursTextShape(h: string, m: string)
    requires AllDigits(h) && AllDigits(m)
    ensures ParseRemaining(h + "h " + m + "m") == Some((ParseDigits(h), ParseDigits(m)))
  {
    var tail := "h " + m + "m";
    var text := h + tail;
    var k := |h|;
    assert text == h + "h " + m + "m";
    assert DigitRun(text) == k by {
      DigitRunOfNumber(h, tail);
    }
    assert text[k] == 'h' && text[k + 1] == ' ' && text[..k] == h;
    assert text[k + 2..] == m + "m";
    assert DigitRun(text[k + 2..]) == |text| - k - 3 by {
      DigitRunOfNumber(m, "m");
    }
    assert text[k + 2..|text| - 1] == m;
    ParseRemainingHours(text, k);
  }

  lemma ParseHoursText(hours: nat, minutes: nat)
    requires hours > 0
    ensures ParseRemaining(RemainingText(hours, minutes)) == Some((hours, minutes))
  {
    HoursTextShape(NatToString(hours), NatToString(minutes));
    ParseNatToString(hours);
    ParseNatToString(minutes);
  }

  lemma ParseMinutesText(minutes: nat)
    ensures ParseRemaining(RemainingText(0, minutes)) == Some((0, minutes))
  {
    var m := NatToString(minutes);
    DigitRunOfNumber(m, "m");
    assert (m + "m")[..|m|] == m;
    ParseNatToString(minutes);
  }

  /** The text `getTimeRemaining` shows determines the hours and minutes it was
      made from. */
  lemma FormatRemainingRoundTrip(diff: nat)
    ensures ParseRemaining(FormatRemaining(diff)) == Some(HoursMinutes(diff))
  {
    var hm := HoursMinutes(diff);
    if hm.0 > 0 {
      ParseHoursText(hm.0, hm.1);
    } else {
      ParseMinutesText(hm.1);
    }
  }

  // ---------------------------------------------------------------------------
  // The manager: `SessionManager` over the single storage slot
  // ---------------------------------------------------------------------------

  class SessionManager {
    /** localStorage['userSession'] */
    var slot: Option<Stored>

    constructor ()
      ensures slot == None
    {
      slot := None;
    }

    /** `save(data)` */
    method Save(data: SessionData)
      modifies this
      ensures slot == Some(Parsed(data))
    {
      slot := Some(Parsed(data));
    }

    /** `clear()` */
    method Clear()
      modifies this
      ensures slot == None
    {
      slot := None;
    }

    /** `get()`: the stored session unless it is missing, unparsable or expired;
        the latter two are cleared. A session expiring exactly at `now` is valid. */
    method Get(now: int) returns (session: Option<SessionData>)
      modifies this
      ensures session == ValidSession(old(slot), now)
      ensures slot == SlotAfterGet(old(slot), now)
    {
      if slot.None? {
        return None;
      }
      match slot.value {
        case Unparsable =>
          Clear();
          session := None;
        case Parsed(data) =>
          if data.expiresAt < now {
            Clear();
            session := None;
          } else {
            session := Some(data);
          }
      }
    }

    /** `isActive()` */
    method IsActive(now: int) returns (active: bool)
      modifies this
      ensures active <==> ValidSession(old(slot), now).Some?
      ensures slot == SlotAfterGet(old(slot), now)
    {
      var session := Get(now);
      active := session.Some?;
    }

    /** `renew()`: pushes the expiry of a valid session to now + 24 h. */
    method Renew(now: int)
      modifies this
      ensures slot == RenewedSlot(old(slot), now)
    {
      var session := Get(now);
      if session.Some? {
        Save(session.value.(expiresAt := now + SessionDuration));
      }
    }

    /** `getTimeRemaining()` */
    method GetTimeRemaining(now: int) returns (text: Option<string>)
      modifies this
      ensures ValidSession(old(slot), now).None? ==> text == None
      ensures ValidSession(old(slot), now).Some? ==>
                text == Some(FormatRemaining(ValidSession(old(slot), now).value.expiresAt - now))
      ensures slot == SlotAfterGet(old(slot), now)
    {
      var session := Get(now);
      if session.None? {
        return None;
      }
      var diff := session.value.expiresAt - now;
      var hours := diff / MillisPerHour;
      var minutes := (diff % MillisPerHour) / MillisPerMinute;
      if hours > 0 {
        text := Some(NatToString(hours) + "h " + NatToString(minutes) + "m");
      } else {
        text := Some(NatToString(minutes) + "m");
      }
    }
  }

  // ---------------------------------------------------------------------------
  // Lifetime properties
  // ---------------------------------------------------------------------------

  /** A created and saved session is returned by `get()` up to and including its
      expiry instant, and never after. */
  lemma CreatedSessionLifetime(data: SessionData, created: int, t: int)
    requires data.expiresAt == created + SessionDuration
    ensures ValidSession(Some(Parsed(data)), t).Some? <==> t <= created + SessionDuration
  {
  }

  /** Renewing keeps every field except the expiry, which becomes now + 24 h; the
      renewed session is then valid for the next 24 hours. */
  lemma RenewKeepsSession(slot: Option<Stored>, now: int, t: int)
    requires ValidSession(slot, now).Some?
    requires now <= t <= now + SessionDuration
    ensures var before := ValidSession(slot, now).value;
            var after := ValidSession(RenewedSlot(slot, now), t);
            && after.Some?
            && after.value == before.(expiresAt := now + SessionDuration)
  {
  }

  /** Renewing without a valid session leaves the slot empty. */
  lemma RenewWithoutSession(slot: Option<Stored>, now: int)
    requires ValidSession(slot, now).None?
    ensures RenewedSlot(slot, now) == None
  {
  }

  /** Right after creation the remaining time reads "24h 0m". */
  lemma FreshSessionRemaining()
    ensures HoursMinutes(SessionDuration) == (24, 0)
    ensures FormatRemaining(SessionDuration) == "24h 0m"
  {
    assert NatToString(24) == "24" by {
      assert NatToString(2) == "2";
    }
    assert NatToString(0) == "0";
  }
}
