/** String operations of the Go standard library, on Unicode scalar values. */
module Text {

  /** `unicode.IsSpace`. */
  predicate IsSpace(c: char) {
    || c == '\t' || c == '\n' || c == '\U{0B}' || c == '\U{0C}' || c == '\r' || c == ' '
    || c == '\U{85}' || c == '\U{A0}' || c == '\U{1680}' || '\U{2000}' <= c <= '\U{200A}'
    || c == '\U{2028}' || c == '\U{2029}' || c == '\U{202F}' || c == '\U{205F}' || c == '\U{3000}'
  }

  function TrimLeft(s: string, cut: char -> bool): string {
    if s == "" || !cut(s[0]) then s else TrimLeft(s[1..], cut)
  }

  function TrimRight(s: string, cut: char -> bool): string {
    if s == "" || !cut(s[|s| - 1]) then s else TrimRight(s[..|s| - 1], cut)
  }

  function Trim(s: string, cut: char -> bool): string {
    TrimRight(TrimLeft(s, cut), cut)
  }

  function TrimSpace(s: string): string { Trim(s, IsSpace) }

  /** Nothing left to trim at either end. */
  predicate Trimmed(s: string, cut: char -> bool) {
    s != "" ==> !cut(s[0]) && !cut(s[|s| - 1])
  }

  predicate All(s: string, cut: char -> bool) {
    forall i | 0 <= i < |s| :: cut(s[i])
  }

  lemma {:induction false} TrimLeftSplit(s: string, cut: char -> bool) returns (k: nat)
    ensures k <= |s| && TrimLeft(s, cut) == s[k..] && All(s[..k], cut)
    ensures k < |s| ==> !cut(s[k])
  {
    if s == "" || !cut(s[0]) {
      k := 0;
    } else {
      var j := TrimLeftSplit(s[1..], cut);
      k := j + 1;
      assert s[..k] == [s[0]] + s[1..][..j];
    }
  }

  lemma {:induction false} TrimRightSplit(s: string, cut: char -> bool) returns (k: nat)
    ensures k <= |s| && TrimRight(s, cut) == s[..k] && All(s[k..], cut)
    ensures k > 0 ==> !cut(s[k - 1])
  {
    if s == "" || !cut(s[|s| - 1]) {
      k := |s|;
    } else {
      var front := s[..|s| - 1];
      k := TrimRightSplit(front, cut);
      assert front[..k] == s[..k];
      assert s[k..] == front[k..] + [s[|s| - 1]];
    }
  }

  /** Trimming stops at a piece whose outer characters stay. */
  lemma TrimAround(a: string, core: string, b: string, cut: char -> bool)
    requires core != "" && Trimmed(core, cut)
    ensures Trim(a + core + b, cut) == TrimLeft(a, cut) + core + TrimRight(b, cut)
  {
    TrimLeftAround(a, core + b, cut);
    assert a + core + b == a + (core + b);
    TrimRightAround(TrimLeft(a, cut) + core, b, cut);
    assert TrimLeft(a, cut) + (core + b) == TrimLeft(a, cut) + core + b;
  }

  lemma {:induction false} TrimLeftAround(a: string, b: string, cut: char -> bool)
    requires b != "" && !cut(b[0])
    ensures TrimLeft(a + b, cut) == TrimLeft(a, cut) + b
  {
    if a == "" {
      assert a + b == b;
    } else if cut(a[0]) {
      assert (a + b)[1..] == a[1..] + b;
      TrimLeftAround(a[1..], b, cut);
    }
  }

  lemma {:induction false} TrimRightAround(a: string, b: string, cut: char -> bool)
    requires a != "" && !cut(a[|a| - 1])
    ensures TrimRight(a + b, cut) == a + TrimRight(b, cut)
  {
    if b == "" {
      assert a + b == a;
    } else if cut(b[|b| - 1]) {
      assert (a + b)[..|a + b| - 1] == a + b[..|b| - 1];
      TrimRightAround(a, b[..|b| - 1], cut);
    } else {
      assert (a + b)[|a + b| - 1] == b[|b| - 1];
    }
  }

  lemma TrimNothing(s: string, cut: char -> bool)
    requires Trimmed(s, cut)
    ensures Trim(s, cut) == s
  {
  }

  lemma {:induction false} TrimAll(s: string, cut: char -> bool)
    requires All(s, cut)
    ensures TrimLeft(s, cut) == "" && TrimRight(s, cut) == ""
  {
    if s != "" {
      assert All(s[1..], cut) && All(s[..|s| - 1], cut);
      TrimAll(s[1..], cut);
      TrimAll(s[..|s| - 1], cut);
    }
  }

  lemma TrimmedAfter(s: string, cut: char -> bool)
    ensures Trimmed(Trim(s, cut), cut)
  {
    var i := TrimLeftSplit(s, cut);
    var l := TrimLeft(s, cut);
    var j := TrimRightSplit(l, cut);
    if j > 0 {
      assert l[..j][0] == l[0] && l[..j][j - 1] == l[j - 1];
    }
  }

  /** The order of Go's string comparison. */
  predicate TextLe(a: string, b: string) {
    a == "" || (b != "" && (a[0] < b[0] || (a[0] == b[0] && TextLe(a[1..], b[1..]))))
  }

  lemma {:induction false} TextTotal(a: string, b: string)
    ensures TextLe(a, b) || TextLe(b, a)
    ensures TextLe(a, b) && TextLe(b, a) ==> a == b
  {
    if a != "" && b != "" && a[0] == b[0] {
      TextTotal(a[1..], b[1..]);
      assert a == [a[0]] + a[1..] && b == [b[0]] + b[1..];
    }
  }

  lemma {:induction false} TextTransitive(a: string, b: string, c: string)
    requires TextLe(a, b) && TextLe(b, c)
    ensures TextLe(a, c)
  {
    if a != "" && a[0] == b[0] && b[0] == c[0] {
      TextTransitive(a[1..], b[1..], c[1..]);
    }
  }

  /** Comparison is decided at the first place where the texts differ, and a prefix comes first. */
  lemma {:induction false} TextLeExactlyWhen(a: string, b: string)
    ensures TextLe(a, b) <==>
            exists k :: 0 <= k <= |a| && k <= |b| && a[..k] == b[..k] && (k == |a| || (k < |b| && a[k] < b[k]))
  {
    if a != "" && b != "" && a[0] == b[0] {
      var a', b' := a[1..], b[1..];
      TextLeExactlyWhen(a', b');
      if TextLe(a, b) {
        var k :| 0 <= k <= |a'| && k <= |b'| && a'[..k] == b'[..k] && (k == |a'| || (k < |b'| && a'[k] < b'[k]));
        assert a[..k + 1] == [a[0]] + a'[..k] && b[..k + 1] == [b[0]] + b'[..k];
      }
      if k :| 0 <= k <= |a| && k <= |b| && a[..k] == b[..k] && (k == |a| || (k < |b| && a[k] < b[k])) {
        assert k > 0 && a'[..k - 1] == a[..k][1..] && b'[..k - 1] == b[..k][1..];
      }
    } else if a == "" {
      assert a[..0] == b[..0];
    } else if b != "" {
      assert a[..0] == b[..0];
      forall k | 0 < k <= |a| && k <= |b| ensures a[..k] != b[..k] {
        assert a[..k][0] == a[0] && b[..k][0] == b[0];
      }
    }
  }

  /** Trimming white space leaves the text between its first and last other characters. */
  lemma TrimSpaceKeeps(s: string) returns (i: nat, j: nat)
    ensures i <= j <= |s| && TrimSpace(s) == s[i..j]
    ensures forall k | 0 <= k < |s| && !(i <= k < j) :: IsSpace(s[k])
    ensures i < j ==> !IsSpace(s[i]) && !IsSpace(s[j - 1])
  {
    i := TrimLeftSplit(s, IsSpace);
    var l := TrimLeft(s, IsSpace);
    var m := TrimRightSplit(l, IsSpace);
    j := i + m;
    assert l[..m] == s[i..j];
    forall k | 0 <= k < |s| && !(i <= k < j) ensures IsSpace(s[k]) {
      if k < i {
        assert s[..i][k] == s[k];
      } else {
        assert l[m..][k - j] == s[k];
      }
    }
    if m > 0 { assert l[0] == s[i] && l[m - 1] == s[j - 1]; }
  }
}
