/**
 * The integer form of the CSS functional notation `hsl(H, S%, L%)`
 * (CSS Color Module Level 3, section 4.2.4), written with one space after
 * each comma, and a reader for exactly that form.
 */
module Css {
  import opened Wrappers
  import opened Decimal

  datatype Hsl = Hsl(hue: nat, saturation: nat, lightness: nat)

  function HslText(c: Hsl): string {
    "hsl(" + (NatToString(c.hue) + (", " + (NatToString(c.saturation) + ("%, "
      + (NatToString(c.lightness) + "%)")))))
  }

  /** The text after `lit` when `s` starts with `lit`. */
  function DropPrefix(lit: string, s: string): (r: Option<string>)
    ensures r.Some? <==> lit <= s
    ensures r.Some? ==> s == lit + r.value
  {
    if lit <= s then
      assert s == lit + s[|lit|..];
      Some(s[|lit|..])
    else
      None
  }

  lemma DropPrefixOf(lit: string, rest: string)
    ensures DropPrefix(lit, lit + rest) == Some(rest)
  {
  }

  /** Reads `hsl(H, S%, L%)` with canonical decimal components and nothing after it. */
  function ParseHsl(s: string): (r: Option<Hsl>)
    ensures r.Some? ==> HslText(r.value) == s
  {
    var s1 :- DropPrefix("hsl(", s);
    var h :- ReadNat(s1);
    var s2 :- DropPrefix(", ", h.rest);
    var sat :- ReadNat(s2);
    var s3 :- DropPrefix("%, ", sat.rest);
    var l :- ReadNat(s3);
    if l.rest == "%)" then
      Some(Hsl(h.value, sat.value, l.value))
    else
      None
  }

  lemma {:induction false} ParseHslText(c: Hsl)
    ensures ParseHsl(HslText(c)) == Some(c)
  {
    var tail3 := "%)";
    var tail2 := "%, " + (NatToString(c.lightness) + tail3);
    var tail1 := ", " + (NatToString(c.saturation) + tail2);
    DropPrefixOf("hsl(", NatToString(c.hue) + tail1);
    ReadNatOfNatToString(c.hue, tail1);
    DropPrefixOf(", ", NatToString(c.saturation) + tail2);
    ReadNatOfNatToString(c.saturation, tail2);
    DropPrefixOf("%, ", NatToString(c.lightness) + tail3);
    ReadNatOfNatToString(c.lightness, tail3);
  }
}
