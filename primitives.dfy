/** Values shared by every part of the model: GUIDs, their text, and optional references. */
module Primitives {

  /** A reference that may be null. */
  datatype Option<T> = None | Some(value: T)

  /** A GUID. Only identity matters here, so a GUID is a natural number and
      `Guid.Empty` is 0; generation is a counter (see `UserFlows.Store`). */
  type Guid = nat

  const EmptyGuid: Guid := 0

  /** One lower-case hexadecimal digit. */
  function HexDigit(d: nat): (c: char)
    requires d < 16
    ensures ('0' <= c <= '9') || ('a' <= c <= 'f')
  {
    if d < 10 then (48 + d) as char else (87 + d) as char
  }

  /** The text of a GUID: its hexadecimal digits without separators, as
      `ToString().Replace("-", "")` yields (no zero padding, no dashes). */
  function GuidText(g: Guid): (t: string)
    ensures 0 < |t|
    ensures g < 16 <==> |t| == 1
    decreases g
  {
    if g < 16 then [HexDigit(g)] else GuidText(g / 16) + [HexDigit(g % 16)]
  }

  /** The value of one hexadecimal digit, if `c` is one. */
  function HexValue(c: char): (v: Option<nat>)
    ensures v.Some? ==> v.value < 16
  {
    if '0' <= c <= '9' then Some(c as nat - 48)
    else if 'a' <= c <= 'f' then Some(c as nat - 87)
    else None
  }

  /** Reads a text of hexadecimal digits back as the GUID it denotes. */
  function ParseGuid(t: string): Option<Guid>
  {
    if |t| == 0 then None
    else
      var last := HexValue(t[|t| - 1]);
      if last.None? then None
      else if |t| == 1 then last
      else
        var front := ParseGuid(t[..|t| - 1]);
        if front.None? then None else Some(16 * front.value + last.value)
  }

  /** Reading a GUID's text gives the GUID back. */
  lemma {:induction false} ParseGuidText(g: Guid)
    ensures ParseGuid(GuidText(g)) == Some(g)
  {
    var t := GuidText(g);
    assert HexValue(HexDigit(g % 16)) == Some(g % 16);
    if 16 <= g {
      assert t[..|t| - 1] == GuidText(g / 16);
      ParseGuidText(g / 16);
    }
  }

  /** Distinct GUIDs have distinct texts, so a text made from a fresh GUID is itself fresh. */
  lemma GuidTextInjective(a: Guid, b: Guid)
    requires GuidText(a) == GuidText(b)
    ensures a == b
  {
    ParseGuidText(a);
    ParseGuidText(b);
  }

  /** `key` is not the text of any GUID the generator can still hand out once
      it has reached `next`, so a key made later from a new GUID differs from it. */
  predicate IssuedBefore(key: string, next: Guid)
  {
    var g := ParseGuid(key);
    g.None? || g.value < next
  }

  lemma FreshTextIssuedBefore(g: Guid, next: Guid)
    requires g < next
    ensures IssuedBefore(GuidText(g), next)
  {
    ParseGuidText(g);
  }

  /** A text issued before `next` is not the text of `g` when `g` is at least `next`. */
  lemma IssuedBeforeDiffers(key: string, next: Guid, g: Guid)
    requires IssuedBefore(key, next) && next <= g
    ensures GuidText(g) != key
  {
    ParseGuidText(g);
  }

  /** A log that grew by `a` and then by `b` grew by `a + b`. */
  lemma GrewBy<T>(log: seq<T>, a: seq<T>, b: seq<T>)
    ensures log + a + b == log + (a + b)
  {
  }

  /** A log that grew by `a`, then `b`, then `c` grew by `a + b + c`. */
  lemma GrewBy3<T>(log: seq<T>, a: seq<T>, b: seq<T>, c: seq<T>)
    ensures log + a + b + c == log + (a + b + c)
  {
  }

  /** The temporary password of a reset: the first seven characters of a new
      GUID's text (`Substring(0, 7)`), or the whole text when it is shorter. */
  function TemporaryPassword(g: Guid): (p: string)
    ensures 0 < |p| <= 7
    ensures p <= GuidText(g)
  {
    var t := GuidText(g);
    if |t| <= 7 then t else t[..7]
  }
}
