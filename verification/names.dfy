/**
 * Raster names: ASCII case folding (the raster store compares names without
 * regard to case), the `Clip` prefix the clip stage gives its outputs, the
 * prefix test the cleanup uses, and the yes/no answer test.
 */
module Names {

  function LowerChar(c: char): char {
    if 'A' <= c <= 'Z' then (c as int + 32) as char else c
  }

  function UpperChar(c: char): char {
    if 'a' <= c <= 'z' then (c as int - 32) as char else c
  }

  /** `s.lower()` on ASCII letters */
  function Lower(s: string): string {
    seq(|s|, i requires 0 <= i < |s| => LowerChar(s[i]))
  }

  /** `s.upper()` on ASCII letters */
  function Upper(s: string): string {
    seq(|s|, i requires 0 <= i < |s| => UpperChar(s[i]))
  }

  /** Two names denote the same raster in the store. */
  predicate SameName(a: string, b: string) {
    Lower(a) == Lower(b)
  }

  /** Python's `s[:k]`: the first `k` characters, or all of `s` when it is shorter. */
  function Head(s: string, k: nat): string {
    if |s| <= k then s else s[..k]
  }

  const ClipPrefix: string := "Clip"

  /** Name of the raster the clip stage derives from `name`. */
  function ClipName(name: string): string {
    ClipPrefix + name
  }

  /** The cleanup test: the first four characters, lower-cased, read "clip". */
  predicate IsClipArtifact(name: string) {
    Lower(Head(name, 4)) == "clip"
  }

  /** The answer test: the answer, upper-cased, reads "Y". */
  predicate IsYes(answer: string) {
    Upper(answer) == "Y"
  }

  lemma LowerAppend(a: string, b: string)
    ensures Lower(a + b) == Lower(a) + Lower(b)
  {
  }

  lemma LowerHead(s: string, k: nat)
    ensures Lower(Head(s, k)) == Head(Lower(s), k)
  {
  }

  /** Every name the clip stage writes is one the cleanup removes. */
  lemma ClipNameIsArtifact(name: string)
    ensures IsClipArtifact(ClipName(name))
  {
    assert Head(ClipName(name), 4) == ClipPrefix;
  }

  /** The cleanup test spelled out: at least four characters, the first four "clip" in any case. */
  lemma ClipArtifactIff(name: string)
    ensures IsClipArtifact(name) <==>
              && |name| >= 4
              && name[0] in "cC" && name[1] in "lL" && name[2] in "iI" && name[3] in "pP"
  {
    if |name| >= 4 {
      var h := Lower(Head(name, 4));
      assert |h| == 4;
      if IsClipArtifact(name) {
        assert h[0] == 'c' && h[1] == 'l' && h[2] == 'i' && h[3] == 'p';
      }
    }
  }

  /** Names that denote the same raster agree on the cleanup test. */
  lemma SameNameArtifact(a: string, b: string)
    requires SameName(a, b)
    ensures IsClipArtifact(a) <==> IsClipArtifact(b)
  {
    LowerHead(a, 4);
    LowerHead(b, 4);
  }

  /** Two clip outputs collide in the store exactly when their sources do. */
  lemma SameClipName(x: string, y: string)
    ensures SameName(ClipName(x), ClipName(y)) <==> SameName(x, y)
  {
    LowerAppend(ClipPrefix, x);
    LowerAppend(ClipPrefix, y);
    var p := Lower(ClipPrefix);
    if Lower(ClipName(x)) == Lower(ClipName(y)) {
      assert Lower(x) == (p + Lower(x))[|p|..] == (p + Lower(y))[|p|..] == Lower(y);
    }
  }

  /** Exactly the answers "y" and "Y" select a layer. */
  lemma IsYesIff(answer: string)
    ensures IsYes(answer) <==> answer == "y" || answer == "Y"
  {
    if IsYes(answer) {
      assert |answer| == |Upper(answer)| == 1;
      assert Upper(answer)[0] == "Y"[0] == 'Y';
      assert UpperChar(answer[0]) == 'Y';
      assert answer == [answer[0]];
    } else {
      assert Upper("y") == "Y";
      assert Upper("Y") == "Y";
    }
  }
}
