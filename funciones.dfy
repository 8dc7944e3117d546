/**
 * The two string helpers of the back end: the username generator and the
 * text normaliser. Case mapping and stripping are the ASCII ones; the count
 * of existing `user_default_` accounts, which the source reads from the
 * database, is a parameter.
 */
module Funciones {
  import opened Wrappers
  import opened Text

  const DefaultPrefix := "user_default_"

  /** `generarUsername`: the first letter of the lower-cased first name, the
      whole lower-cased surname, then the last letter of the first name. An
      empty first name makes the indexing fail, and the fallback name numbers
      the default accounts from one. */
  function GenerarUsername(nombre: string, apellido: string, defaultCount: nat): (r: string)
    ensures |nombre| > 0 ==>
              && |r| == |apellido| + 2
              && r[0] == LowerChar(nombre[0])
              && r[1..|r| - 1] == Lower(apellido)
              && r[|r| - 1] == LowerChar(nombre[|nombre| - 1])
    ensures |nombre| > 0 ==> forall i :: 0 <= i < |r| ==> !IsUpperAscii(r[i])
    ensures |nombre| == 0 ==>
              && |r| > |DefaultPrefix|
              && r[..|DefaultPrefix|] == DefaultPrefix
              && ParseDecimal(r[|DefaultPrefix|..]) == Some(defaultCount + 1)
  {
    if |nombre| == 0 then
      var number := NatToDecimal(defaultCount + 1);
      DecimalRoundTrip(defaultCount + 1);
      assert (DefaultPrefix + number)[|DefaultPrefix|..] == number;
      DefaultPrefix + number
    else
      var n := Lower(nombre);
      var a := Lower(apellido);
      var r := [n[0]] + a + [n[|n| - 1]];
      assert r[1..|r| - 1] == a;
      r
  }

  /** Distinct counts give distinct fallback names, so each default account
      gets its own. */
  lemma FallbackNamesDistinct(apellido: string, k1: nat, k2: nat)
    requires k1 != k2
    ensures GenerarUsername("", apellido, k1) != GenerarUsername("", apellido, k2)
  {
    var r1 := GenerarUsername("", apellido, k1);
    var r2 := GenerarUsername("", apellido, k2);
    if r1 == r2 {
      assert ParseDecimal(r1[|DefaultPrefix|..]) == Some(k1 + 1);
      assert ParseDecimal(r2[|DefaultPrefix|..]) == Some(k2 + 1);
    }
  }

  /** The username does not depend on the case of the names it is built from. */
  lemma UsernameIgnoresCase(nombre: string, apellido: string, defaultCount: nat)
    ensures GenerarUsername(Upper(nombre), Upper(apellido), defaultCount)
         == GenerarUsername(nombre, apellido, defaultCount)
  {
    if |nombre| > 0 {
      LowerOfUpper(nombre);
      LowerOfUpper(apellido);
      var r1 := GenerarUsername(Upper(nombre), Upper(apellido), defaultCount);
      var r2 := GenerarUsername(nombre, apellido, defaultCount);
      assert r1[1..|r1| - 1] == r2[1..|r2| - 1];
      assert r1 == [r1[0]] + r1[1..|r1| - 1] + [r1[|r1| - 1]];
      assert r2 == [r2[0]] + r2[1..|r2| - 1] + [r2[|r2| - 1]];
    }
  }

  /** With a one-letter first name that letter opens and closes the username. */
  lemma OneLetterNameFramesUsername(nombre: string, apellido: string, defaultCount: nat)
    requires |nombre| == 1
    ensures var r := GenerarUsername(nombre, apellido, defaultCount);
            |r| >= 2 && r[0] == r[|r| - 1] == LowerChar(nombre[0])
  {
  }

  /** The example of the source's documentation, with the accent dropped. */
  lemma UsernameExample()
    ensures GenerarUsername("OSCAR", "MORAN", 0) == "omoranr"
  {
    var r := GenerarUsername("OSCAR", "MORAN", 0);
    assert Lower("MORAN") == "moran";
    assert r[1..|r| - 1] == "moran";
    assert r == [r[0]] + r[1..|r| - 1] + [r[|r| - 1]];
  }

  /** `normalizarTexto` on ASCII text: strip the surrounding whitespace, then
      upper-case what is left. */
  function NormalizarTexto(texto: string): (r: string)
    ensures exists i, j ::
              && 0 <= i <= j <= |texto| && r == Upper(texto[i..j])
              && (forall k :: 0 <= k < i ==> IsPySpace(texto[k]))
              && (forall k :: j <= k < |texto| ==> IsPySpace(texto[k]))
    ensures |r| > 0 ==> !IsPySpace(r[0]) && !IsPySpace(r[|r| - 1])
    ensures forall k :: 0 <= k < |r| ==> !IsLowerAscii(r[k])
  {
    var s := Strip(texto);
    UpperKeepsSpaces(s);
    Upper(s)
  }

  /** Upper-casing neither creates nor removes whitespace. */
  lemma UpperKeepsSpaces(s: string)
    ensures forall k :: 0 <= k < |s| ==> (IsPySpace(Upper(s)[k]) <==> IsPySpace(s[k]))
  {
  }

  /** Normalising a normalised text changes nothing. */
  lemma NormalizarIdempotent(texto: string)
    ensures NormalizarTexto(NormalizarTexto(texto)) == NormalizarTexto(texto)
  {
    var r := NormalizarTexto(texto);
    StripStable(r);
    var s := Strip(texto);
    assert r == Upper(s);
    UpperIdempotent(s);
  }
}
