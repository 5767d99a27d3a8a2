/** The extension check applied to uploaded image names. */
module Upload {
  import opened Models

  const Extensions: set<string> := {"png", "jpg", "jpeg", "gif"}

  /** The index of the last '.' in `s`: where `s.rsplit('.', 1)` splits. */
  function LastDot(s: string): (r: Option<nat>)
    ensures r.None? <==> '.' !in s
    ensures r.Some? ==> r.value < |s| && s[r.value] == '.' && '.' !in s[r.value + 1..]
  {
    if |s| == 0 then None
    else if s[|s| - 1] == '.' then Some(|s| - 1)
    else
      var init := s[..|s| - 1];
      assert s == init + [s[|s| - 1]];
      var r := LastDot(init);
      if r.Some? then
        assert s[r.value + 1..] == init[r.value + 1..] + [s[|s| - 1]];
        r
      else r
  }

  /** ASCII lower-casing of one character; other characters are left alone. */
  function LowerChar(c: char): (r: char)
    ensures 'A' <= c <= 'Z' ==> r as int == c as int + 32
    ensures !('A' <= c <= 'Z') ==> r == c
    ensures !('A' <= r <= 'Z')
  {
    if 'A' <= c <= 'Z' then (c as int + 32) as char else c
  }

  function Lower(s: string): (r: string)
    ensures |r| == |s|
  {
    if s == [] then [] else [LowerChar(s[0])] + Lower(s[1..])
  }

  /** Lower-casing works character by character, in place. */
  lemma {:induction false} LowerAt(s: string, i: nat)
    requires i < |s|
    ensures Lower(s)[i] == LowerChar(s[i])
  {
    if i > 0 {
      LowerAt(s[1..], i - 1);
    }
  }

  /** allowed_file: the name has a '.' and the lower-cased text after the last
      '.' is one of the four image extensions. */
  predicate AllowedFile(filename: string)
  {
    match LastDot(filename)
    case None => false
    case Some(i) => Lower(filename[i + 1..]) in Extensions
  }

  /** `i` is the position of the last '.' in `f`. */
  predicate IsLastDot(f: string, i: int)
  {
    0 <= i < |f| && f[i] == '.' && forall k :: i < k < |f| ==> f[k] != '.'
  }

  /** The rule stated without LastDot: the name has a last '.', and the text
      after it is an allowed extension in any letter case. */
  lemma AllowedFileSpec(f: string)
    ensures AllowedFile(f) <==> exists i :: IsLastDot(f, i) && Lower(f[i + 1..]) in Extensions
  {
    if AllowedFile(f) {
      var v := LastDot(f).value;
      LastDotIsLast(f, v);
      assert IsLastDot(f, v) && Lower(f[v + 1..]) in Extensions;
    }
    forall i | IsLastDot(f, i) && Lower(f[i + 1..]) in Extensions ensures AllowedFile(f) {
      LastDotIsLast(f, i);
    }
  }

  /** `IsLastDot` and `LastDot` name the same position. */
  lemma LastDotIsLast(f: string, i: int)
    ensures IsLastDot(f, i) <==> LastDot(f) == Some(i)
  {
    var d := LastDot(f);
    if d == Some(i) {
      forall k | i < k < |f| ensures f[k] != '.' {
        assert f[k] == f[i + 1..][k - i - 1];
      }
    }
    if IsLastDot(f, i) {
      assert f[i] in f;
    }
  }

  /** An empty name is never allowed, so the handlers' separate test for an
      empty file name never changes the outcome. */
  lemma EmptyNameRejected()
    ensures !AllowedFile("")
  {
  }

  /** Lower-casing the whole name does not change the verdict. */
  lemma AllowedFileIgnoresCase(f: string)
    ensures AllowedFile(Lower(f)) == AllowedFile(f)
  {
    LastDotOfLower(f);
    if LastDot(f).Some? {
      LowerSuffix(f, LastDot(f).value + 1);
    }
    SameVerdict(Lower(f), f);
  }

  /** Two names with the same last '.' and the same lower-cased extension
      get the same verdict. */
  lemma SameVerdict(g: string, f: string)
    requires LastDot(g) == LastDot(f)
    requires LastDot(f).Some? && LastDot(f).value + 1 <= |g| ==>
      Lower(g[LastDot(f).value + 1..]) == Lower(f[LastDot(f).value + 1..])
    ensures AllowedFile(g) == AllowedFile(f)
  {
  }

  /** The extension cut from the lower-cased name, lower-cased again, is the
      lower-cased extension. */
  lemma LowerSuffix(s: string, a: nat)
    requires a <= |s|
    ensures Lower(Lower(s)[a..]) == Lower(s[a..])
  {
    LowerSlice(s, a);
    LowerTwice(s[a..]);
  }

  lemma LowerSlice(s: string, a: nat)
    requires a <= |s|
    ensures Lower(s)[a..] == Lower(s[a..])
  {
    forall k | 0 <= k < |s| - a ensures Lower(s)[a..][k] == Lower(s[a..])[k] {
      LowerAt(s, a + k);
      LowerAt(s[a..], k);
    }
  }

  lemma LowerTwice(s: string)
    ensures Lower(Lower(s)) == Lower(s)
  {
    forall k | 0 <= k < |s| ensures Lower(Lower(s))[k] == Lower(s)[k] {
      LowerAt(s, k);
      LowerAt(Lower(s), k);
    }
  }

  lemma {:induction false} LastDotOfLower(f: string)
    ensures LastDot(Lower(f)) == LastDot(f)
    decreases |f|
  {
    if |f| > 0 {
      var init := f[..|f| - 1];
      var g := Lower(f);
      forall k | 0 <= k < |init| ensures g[..|g| - 1][k] == Lower(init)[k] {
        LowerAt(f, k);
        LowerAt(init, k);
      }
      assert g[..|g| - 1] == Lower(init);
      LowerAt(f, |f| - 1);
      assert g == Lower(init) + [LowerChar(f[|f| - 1])];
      LastDotOfLower(init);
    }
  }

  /** An upper-case extension is accepted. */
  lemma UpperCaseExtensionAllowed()
    ensures AllowedFile("photo.PNG")
  {
    assert LastDot("photo.PNG") == Some(5) by {
      assert LastDot("photo.PNG"[..8]) == Some(5);
    }
    assert Lower("PNG") == "png";
  }

  /** Only the text after the last '.' counts: "tar.gz" is not an image. */
  lemma LastExtensionDecides()
    ensures !AllowedFile("notes.tar.gz")
  {
    assert LastDot("notes.tar.gz") == Some(9) by {
      assert LastDot("notes.tar.gz"[..11]) == Some(9);
    }
    assert Lower("gz") == "gz";
  }

  /** A name without a '.' is refused even when it spells an extension. */
  lemma NoDotRejected()
    ensures !AllowedFile("png")
  {
  }
}
