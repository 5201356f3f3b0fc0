/** `maskSecret`: the display form of a secret. Lengths count characters. */
module Masking {
  const Bullet: char := '\U{2022}'

  function Bullets(n: nat): (r: string)
    ensures |r| == n && forall i :: 0 <= i < n ==> r[i] == Bullet
  {
    seq(n, _ => Bullet)
  }

  function Min(a: int, b: int): int {
    if a < b then a else b
  }

  /** As written: short secrets become eight bullets; otherwise the first
      and last four characters stay and at most twelve bullets stand for
      the middle, however long it is. */
  function MaskSecret(s: string): (r: string)
    ensures |s| < 8 ==> r == Bullets(8)
    ensures |s| >= 8 ==>
      && |r| == 8 + Min(|s| - 8, 12)
      && r[..4] == s[..4] && r[|r| - 4..] == s[|s| - 4..]
      && forall i :: 4 <= i < |r| - 4 ==> r[i] == Bullet
    ensures 8 <= |r| <= 20
  {
    if |s| < 8 then Bullets(8)
    else s[..4] + Bullets(Min(|s| - 8, 12)) + s[|s| - 4..]
  }

  /** The guard lets an eight-character secret through: its first four and
      last four characters are all of it, so it is shown in full. */
  lemma EightCharactersShownInFull(s: string)
    requires |s| == 8
    ensures MaskSecret(s) == s
  {
    assert s[..4] + s[4..] == s;
  }

  /** The concrete case: "hunter42" masks to itself. */
  lemma EightCharacterExample()
    ensures MaskSecret("hunter42") == "hunter42"
  {
    EightCharactersShownInFull("hunter42");
  }

  /** The mask with the boundary moved so that every shown secret has at
      least one hidden character. */
  function MaskSecretCorrected(s: string): (r: string)
    ensures |s| <= 8 ==> r == Bullets(8)
    ensures |s| > 8 ==>
      && |r| == 8 + Min(|s| - 8, 12)
      && r[..4] == s[..4] && r[|r| - 4..] == s[|s| - 4..]
      && forall i :: 4 <= i < |r| - 4 ==> r[i] == Bullet
    ensures 8 <= |r| <= 20
  {
    if |s| <= 8 then Bullets(8)
    else s[..4] + Bullets(Min(|s| - 8, 12)) + s[|s| - 4..]
  }

  /** The corrected mask never reproduces a secret that has no bullet in
      it, and it agrees with the original everywhere except at length 8. */
  lemma CorrectedNeverShowsSecret(s: string)
    requires forall i :: 0 <= i < |s| ==> s[i] != Bullet
    ensures MaskSecretCorrected(s) != s
    ensures |s| != 8 ==> MaskSecretCorrected(s) == MaskSecret(s)
  {
    var r := MaskSecretCorrected(s);
    if |s| > 8 {
      assert r[4] == Bullet && s[4] != Bullet;
    } else if |s| > 0 {
      assert r[0] == Bullet && s[0] != Bullet;
    }
  }
}
