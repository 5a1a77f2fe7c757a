/**
 * The file-name test of the drop handler: `name.toLowerCase().endsWith('.glb')`,
 * with case folding restricted to ASCII letters.
 */
module AsciiText {

  predicate IsUpperAscii(c: char) {
    'A' <= c <= 'Z'
  }

  /** `toLowerCase` on one character: ASCII capitals become small letters, all else stays. */
  function ToLowerChar(c: char): (r: char)
    ensures !IsUpperAscii(r)
    ensures r != c ==> IsUpperAscii(c) && r as int == c as int + 32
  {
    if IsUpperAscii(c) then (c as int + 32) as char else c
  }

  /** `toLowerCase` on a string, character by character. */
  function ToLower(s: string): (r: string)
    ensures |r| == |s|
    ensures forall i :: 0 <= i < |s| ==> r[i] == ToLowerChar(s[i])
  {
    if s == [] then [] else [ToLowerChar(s[0])] + ToLower(s[1..])
  }

  /** `String.prototype.endsWith`: the last |suffix| characters of `s` are `suffix`. */
  function EndsWith(s: string, suffix: string): (r: bool)
    ensures r <==> |suffix| <= |s| && forall i :: 0 <= i < |suffix| ==> s[|s| - |suffix| + i] == suffix[i]
  {
    |suffix| <= |s| && s[|s| - |suffix|..] == suffix
  }

  const GlbExtension := ".glb"

  /**
   * The drop handler's acceptance test. Its contract spells out what
   * case-insensitive means here: the last four characters are a dot followed
   * by g, l and b, each in either case.
   */
  function HasGlbExtension(name: string): (r: bool)
    ensures r <==> |name| >= 4 && name[|name| - 4] == '.'
                   && (name[|name| - 3] == 'g' || name[|name| - 3] == 'G')
                   && (name[|name| - 2] == 'l' || name[|name| - 2] == 'L')
                   && (name[|name| - 1] == 'b' || name[|name| - 1] == 'B')
  {
    LastFourFolded(name);
    EndsWith(ToLower(name), GlbExtension)
  }

  /** A character folds to a small letter exactly when it is that letter or its capital. */
  lemma FoldsTo(c: char, small: char, capital: char)
    requires 'a' <= small <= 'z' && capital as int == small as int - 32
    ensures ToLowerChar(c) == small <==> c == small || c == capital
  {
  }

  /** A folded name ends in ".glb" exactly when its last four characters are '.', 'g', 'l', 'b'. */
  lemma LowerTailIsGlb(lower: string)
    requires |lower| >= 4
    ensures EndsWith(lower, GlbExtension) <==>
      lower[|lower| - 4] == '.' && lower[|lower| - 3] == 'g' && lower[|lower| - 2] == 'l' && lower[|lower| - 1] == 'b'
  {
    var n := |lower|;
    assert lower[n - 4..] == [lower[n - 4], lower[n - 3], lower[n - 2], lower[n - 1]];
  }

  /** Four characters fold to '.', 'g', 'l', 'b' exactly when each is that character or its capital. */
  lemma FoldsToGlb(dot: char, g: char, l: char, b: char)
    ensures (ToLowerChar(dot) == '.' && ToLowerChar(g) == 'g' && ToLowerChar(l) == 'l' && ToLowerChar(b) == 'b') <==>
      dot == '.' && (g == 'g' || g == 'G') && (l == 'l' || l == 'L') && (b == 'b' || b == 'B')
  {
    FoldsTo(g, 'g', 'G');
    FoldsTo(l, 'l', 'L');
    FoldsTo(b, 'b', 'B');
  }

  /** A string that agrees with the folded name at the last four positions ends in ".glb" as the name's characters say. */
  lemma TailFolded(name: string, lower: string)
    requires |lower| == |name| >= 4
    requires forall k :: |name| - 4 <= k < |name| ==> lower[k] == ToLowerChar(name[k])
    ensures EndsWith(lower, GlbExtension) <==>
      name[|name| - 4] == '.'
      && (name[|name| - 3] == 'g' || name[|name| - 3] == 'G')
      && (name[|name| - 2] == 'l' || name[|name| - 2] == 'L')
      && (name[|name| - 1] == 'b' || name[|name| - 1] == 'B')
  {
    var n := |name|;
    LowerTailIsGlb(lower);
    FoldsToGlb(name[n - 4], name[n - 3], name[n - 2], name[n - 1]);
  }

  /** The acceptance test, read off the last four characters of the name. */
  lemma LastFourFolded(name: string)
    ensures EndsWith(ToLower(name), GlbExtension) <==>
      |name| >= 4 && name[|name| - 4] == '.'
      && (name[|name| - 3] == 'g' || name[|name| - 3] == 'G')
      && (name[|name| - 2] == 'l' || name[|name| - 2] == 'L')
      && (name[|name| - 1] == 'b' || name[|name| - 1] == 'B')
  {
    if |name| >= 4 {
      TailFolded(name, ToLower(name));
    }
  }

  /** Folding a name to lower case first does not change whether it is accepted. */
  lemma {:induction false} ToLowerIdempotent(s: string)
    ensures ToLower(ToLower(s)) == ToLower(s)
  {
    var t := ToLower(s);
    assert |ToLower(t)| == |t|;
    forall i | 0 <= i < |t| ensures ToLower(t)[i] == t[i] {
      assert t[i] == ToLowerChar(s[i]);
    }
  }

  lemma LowerCaseFormAccepted(name: string)
    ensures HasGlbExtension(ToLower(name)) == HasGlbExtension(name)
  {
    ToLowerIdempotent(name);
  }

  /** Any stem followed by ".glb" in any mix of cases is accepted: "statue.GLB", for one. */
  lemma {:induction false} GlbInAnyCaseAccepted(stem: string, ext: string)
    requires |ext| == 4 && ext[0] == '.'
    requires (ext[1] == 'g' || ext[1] == 'G') && (ext[2] == 'l' || ext[2] == 'L') && (ext[3] == 'b' || ext[3] == 'B')
    ensures HasGlbExtension(stem + ext)
  {
    var name := stem + ext;
    assert name[|name| - 4..] == ext;
  }

  /** Any stem followed by ".obj" is rejected: "statue.obj", for one. */
  lemma {:induction false} ObjRejected(stem: string)
    ensures !HasGlbExtension(stem + ".obj")
  {
    var name := stem + ".obj";
    assert name[|name| - 1] == 'j';
  }

  /** ".glb" followed by ".txt" (as in "statue.glb.txt") is rejected, and so is the too-short name "glb". */
  lemma {:induction false} MisplacedExtensionRejected(stem: string)
    ensures !HasGlbExtension(stem + ".glb.txt")
    ensures !HasGlbExtension("glb")
  {
    var name := stem + ".glb.txt";
    assert name[|name| - 1] == 't';
    assert |"glb"| == 3;
  }
}
