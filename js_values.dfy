/** JavaScript values as far as the store looks at them: the key check of
    `isValidKey`, and `dateParser`, the reviver JSON.parse applies to every
    value it reads from a `json` payload. */
module JsValues {

  /** The values JSON.parse produces, plus `undefined` and the Date objects
      the reviver creates. A number is kept as its literal text: its numeric
      value plays no part here. `JsDate(source)` is `new Date(source)`; the
      time value it denotes is not modelled. */
  datatype JsValue =
    | JsUndefined
    | JsNull
    | JsBool(b: bool)
    | JsNumber(literal: string)
    | JsString(s: string)
    | JsArray(items: seq<JsValue>)
    | JsObject(members: seq<(string, JsValue)>)
    | JsDate(source: string)

  /** isValidKey: a key must be a string and must not be empty. */
  function IsValidKey(key: JsValue): (valid: bool)
    ensures valid <==> exists s :: key == JsString(s) && |s| > 0
  {
    if !key.JsString? || |key.s| == 0 then false else true
  }

  predicate IsDigit(c: char) { '0' <= c <= '9' }

  /** The characters `[\d|:]` of the offset part of the pattern. */
  predicate IsOffsetChar(c: char) { IsDigit(c) || c == '|' || c == ':' }

  /** How many digits `t` starts with. */
  function LeadingDigits(t: string): (n: nat)
    ensures n <= |t|
    ensures forall k | 0 <= k < n :: IsDigit(t[k])
    ensures n < |t| ==> !IsDigit(t[n])
  {
    if t == [] || !IsDigit(t[0]) then 0 else 1 + LeadingDigits(t[1..])
  }

  /** The end of the pattern, `(?:Z|(\+|-)([\d|:]*))?$`, after the
      fraction digits. */
  predicate IsZoneSuffix(t: string)
  {
    t == [] || t == "Z" ||
    ((t[0] == '+' || t[0] == '-') && forall k | 1 <= k < |t| :: IsOffsetChar(t[k]))
  }

  /** `reISO.exec(value)` succeeds: the pattern
      `^(\d{4})-(\d{2})-(\d{2})T(\d{2}):(\d{2}):(\d{2}(?:\.\d*))(?:Z|(\+|-)([\d|:]*))?$`.
      The seconds must be followed by a '.' (the fraction group is not
      optional), then any number of digits, then nothing, `Z`, or a sign and
      a run of digits, '|' and ':'. Since the zone part starts with a
      non-digit, the digits of the fraction end exactly where the first
      non-digit is. */
  predicate MatchesIso(s: string)
  {
    |s| >= 20 &&
    IsDigit(s[0]) && IsDigit(s[1]) && IsDigit(s[2]) && IsDigit(s[3]) && s[4] == '-' &&
    IsDigit(s[5]) && IsDigit(s[6]) && s[7] == '-' &&
    IsDigit(s[8]) && IsDigit(s[9]) && s[10] == 'T' &&
    IsDigit(s[11]) && IsDigit(s[12]) && s[13] == ':' &&
    IsDigit(s[14]) && IsDigit(s[15]) && s[16] == ':' &&
    IsDigit(s[17]) && IsDigit(s[18]) && s[19] == '.' &&
    IsZoneSuffix(s[20 + LeadingDigits(s[20..])..])
  }

  /** dateParser(key, value): a string that matches the pattern becomes a
      Date built from it; every other value, and every string that does not
      match, is returned as it is. The key is not looked at. */
  function DateParser(key: string, value: JsValue): (r: JsValue)
    ensures value.JsString? && MatchesIso(value.s) ==> r == JsDate(value.s)
    ensures !(value.JsString? && MatchesIso(value.s)) ==> r == value
  {
    if value.JsString? && MatchesIso(value.s) then JsDate(value.s) else value
  }

  /** How JSON.parse applies the reviver: the members of an object and the
      elements of an array are revived first, then the value itself, with
      the name under which it is held. Array indices are passed as "" here,
      since dateParser ignores the name. */
  function Revive(name: string, v: JsValue): JsValue
    decreases v
  {
    match v
    case JsArray(items) =>
      DateParser(name, JsArray(seq(|items|, i requires 0 <= i < |items| => Revive("", items[i]))))
    case JsObject(members) =>
      DateParser(name, JsObject(seq(|members|, i requires 0 <= i < |members| =>
        (members[i].0, Revive(members[i].0, members[i].1)))))
    case _ => DateParser(name, v)
  }

  /** No string anywhere in `v` matches the pattern. */
  predicate NoIsoStrings(v: JsValue)
  {
    match v
    case JsString(s) => !MatchesIso(s)
    case JsArray(items) => forall i | 0 <= i < |items| :: NoIsoStrings(items[i])
    case JsObject(members) => forall i | 0 <= i < |members| :: NoIsoStrings(members[i].1)
    case _ => true
  }

  /** The intended outcome of the reviver, stated leaf by leaf: each string
      that matches the pattern is replaced, where it stands, by the Date
      built from it; every other leaf, every member name and the shape of
      arrays and objects are kept. */
  function DatesInPlace(v: JsValue): JsValue
    decreases v
  {
    match v
    case JsString(s) => if MatchesIso(s) then JsDate(s) else v
    case JsArray(items) =>
      JsArray(seq(|items|, i requires 0 <= i < |items| => DatesInPlace(items[i])))
    case JsObject(members) =>
      JsObject(seq(|members|, i requires 0 <= i < |members| => (members[i].0, DatesInPlace(members[i].1))))
    case _ => v
  }

  /** The reviver walk turns each matching string, at any depth, into the
      Date of that same string in the same place, and changes nothing else. */
  lemma {:induction false} ReviveIsDatesInPlace(name: string, v: JsValue)
    ensures Revive(name, v) == DatesInPlace(v)
    decreases v
  {
    match v
    case JsArray(items) =>
      forall i | 0 <= i < |items| ensures Revive("", items[i]) == DatesInPlace(items[i]) {
        ReviveIsDatesInPlace("", items[i]);
      }
      assert seq(|items|, i requires 0 <= i < |items| => Revive("", items[i]))
          == seq(|items|, i requires 0 <= i < |items| => DatesInPlace(items[i]));
    case JsObject(members) =>
      forall i | 0 <= i < |members| ensures Revive(members[i].0, members[i].1) == DatesInPlace(members[i].1) {
        ReviveIsDatesInPlace(members[i].0, members[i].1);
      }
      assert seq(|members|, i requires 0 <= i < |members| => (members[i].0, Revive(members[i].0, members[i].1)))
          == seq(|members|, i requires 0 <= i < |members| => (members[i].0, DatesInPlace(members[i].1)));
    case _ =>
  }

  /** A parsed value with no string matching the pattern comes out of the
      reviver unchanged. */
  lemma {:induction false} ReviveKeepsPlainValues(name: string, v: JsValue)
    requires NoIsoStrings(v)
    ensures Revive(name, v) == v
    decreases v
  {
    match v
    case JsArray(items) =>
      forall i | 0 <= i < |items| ensures Revive("", items[i]) == items[i] {
        ReviveKeepsPlainValues("", items[i]);
      }
      assert seq(|items|, i requires 0 <= i < |items| => Revive("", items[i])) == items;
    case JsObject(members) =>
      forall i | 0 <= i < |members| ensures Revive(members[i].0, members[i].1) == members[i].1 {
        ReviveKeepsPlainValues(members[i].0, members[i].1);
      }
      assert seq(|members|, i requires 0 <= i < |members| =>
        (members[i].0, Revive(members[i].0, members[i].1))) == members;
    case _ =>
  }

  /** After the reviver no string matching the pattern is left: each one,
      at any depth, has become a Date. */
  lemma {:induction false} ReviveReplacesAllIsoStrings(name: string, v: JsValue)
    ensures NoIsoStrings(Revive(name, v))
    decreases v
  {
    match v
    case JsArray(items) =>
      forall i | 0 <= i < |items| ensures NoIsoStrings(Revive("", items[i])) {
        ReviveReplacesAllIsoStrings("", items[i]);
      }
    case JsObject(members) =>
      forall i | 0 <= i < |members| ensures NoIsoStrings(Revive(members[i].0, members[i].1)) {
        ReviveReplacesAllIsoStrings(members[i].0, members[i].1);
      }
    case _ =>
  }

  /** Every digits-only string of the given length. */
  predicate IsDigits(t: string, n: nat)
  {
    |t| == n && forall k | 0 <= k < n :: IsDigit(t[k])
  }

  /** The timestamp Date#toJSON writes for a year from 0 to 9999,
      `YYYY-MM-DDTHH:mm:ss.sssZ`, matches the pattern whatever its digits. */
  lemma ToJsonTimestampMatches(y: string, mo: string, d: string, h: string, mi: string, sec: string, ms: string)
    requires IsDigits(y, 4) && IsDigits(mo, 2) && IsDigits(d, 2)
    requires IsDigits(h, 2) && IsDigits(mi, 2) && IsDigits(sec, 2) && IsDigits(ms, 3)
    ensures MatchesIso(y + "-" + mo + "-" + d + "T" + h + ":" + mi + ":" + sec + "." + ms + "Z")
  {
    var head := y + "-" + mo + "-" + d + "T" + h + ":" + mi + ":" + sec + ".";
    IsoLayoutMatches(head, ms, "Z");
    assert head + ms + "Z" == y + "-" + mo + "-" + d + "T" + h + ":" + mi + ":" + sec + "." + ms + "Z";
  }

  /** A timestamp without the '.' after the seconds does not match: it stays
      a string after the reviver. */
  lemma NoFractionNoMatch()
    ensures !MatchesIso("2024-01-01T00:00:00Z")
  {
    assert "2024-01-01T00:00:00Z"[19] == 'Z';
  }

  /** The digits in front of a part that does not start with a digit are
      all the leading digits. */
  lemma {:induction false} LeadingDigitsOf(frac: string, zone: string)
    requires forall k | 0 <= k < |frac| :: IsDigit(frac[k])
    requires zone == [] || !IsDigit(zone[0])
    ensures LeadingDigits(frac + zone) == |frac|
  {
    if frac != [] {
      assert (frac + zone)[1..] == frac[1..] + zone;
      LeadingDigitsOf(frac[1..], zone);
    } else {
      assert frac + zone == zone;
    }
  }

  /** Every timestamp of the shape `dddd-dd-ddTdd:dd:dd.` followed by any
      run of fraction digits and then nothing, `Z`, or a sign with a run of
      digits, '|' and ':' (a numeric offset such as `+01:00`) matches. */
  lemma IsoLayoutMatches(head: string, frac: string, zone: string)
    requires |head| == 20
    requires IsDigit(head[0]) && IsDigit(head[1]) && IsDigit(head[2]) && IsDigit(head[3]) && head[4] == '-'
    requires IsDigit(head[5]) && IsDigit(head[6]) && head[7] == '-'
    requires IsDigit(head[8]) && IsDigit(head[9]) && head[10] == 'T'
    requires IsDigit(head[11]) && IsDigit(head[12]) && head[13] == ':'
    requires IsDigit(head[14]) && IsDigit(head[15]) && head[16] == ':'
    requires IsDigit(head[17]) && IsDigit(head[18]) && head[19] == '.'
    requires forall k | 0 <= k < |frac| :: IsDigit(frac[k])
    requires IsZoneSuffix(zone)
    ensures MatchesIso(head + frac + zone)
  {
    var s := head + frac + zone;
    assert s[20..] == frac + zone;
    LeadingDigitsOf(frac, zone);
    assert s[20 + |frac|..] == zone;
  }

  /** The string in `{"when":"2024-01-01T00:00:00.000Z"}` is revived into a
      Date; the key and the shape of the object are kept. */
  lemma ReviveExample()
    ensures Revive("", JsObject([("when", JsString("2024-01-01T00:00:00.000Z"))]))
         == JsObject([("when", JsDate("2024-01-01T00:00:00.000Z"))])
  {
    var head := "2024-01-01T00:00:00.";
    assert head[19] == '.';
    IsoLayoutMatches(head, "000", "Z");
    assert head + "000" + "Z" == "2024-01-01T00:00:00.000Z";
    var ms := [("when", JsString("2024-01-01T00:00:00.000Z"))];
    assert seq(|ms|, i requires 0 <= i < |ms| => (ms[i].0, Revive(ms[i].0, ms[i].1)))
        == [("when", JsDate("2024-01-01T00:00:00.000Z"))];
  }
}
