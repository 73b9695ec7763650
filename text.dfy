/** `String.prototype.trim` and the blank-topic test built on it. */
module Text {

  /** The characters `trim` removes: ECMAScript's WhiteSpace (tab, vertical tab,
      form feed, space, no-break space, byte order mark and the Unicode category Zs)
      and LineTerminator (line feed, carriage return, line and paragraph separators). */
  predicate IsSpace(c: char) {
    var n := c as int;
    || 0x09 <= n <= 0x0D                                  // tab, LF, VT, FF, CR
    || n == 0x20 || n == 0xA0 || n == 0x1680 || 0x2000 <= n <= 0x200A
    || n == 0x2028 || n == 0x2029                          // line, paragraph separator
    || n == 0x202F || n == 0x205F || n == 0x3000 || n == 0xFEFF
  }

  ghost predicate AllSpace(s: string) {
    forall i :: 0 <= i < |s| ==> IsSpace(s[i])
  }

  /** Drops the leading white space. */
  function TrimStart(s: string): string {
    if s != [] && IsSpace(s[0]) then TrimStart(s[1..]) else s
  }

  /** Drops the trailing white space. */
  function TrimEnd(s: string): string {
    if s != [] && IsSpace(s[|s| - 1]) then TrimEnd(s[..|s| - 1]) else s
  }

  /** What `TrimStart` leaves is a suffix of `s` that does not start with white
      space, and everything it dropped is white space. */
  lemma {:induction false} TrimStartSpec(s: string)
    ensures |TrimStart(s)| <= |s| && TrimStart(s) == s[|s| - |TrimStart(s)|..]
    ensures AllSpace(s[..|s| - |TrimStart(s)|])
    ensures TrimStart(s) == [] || !IsSpace(TrimStart(s)[0])
    ensures AllSpace(s) ==> TrimStart(s) == []
  {
    if s != [] && IsSpace(s[0]) {
      var t := s[1..];
      TrimStartSpec(t);
      var k := |t| - |TrimStart(t)|;
      assert t[k..] == s[k + 1..];
      forall i | 0 <= i < k + 1 ensures IsSpace(s[i]) {
        if i > 0 {
          assert s[i] == t[..k][i - 1];
        }
      }
      if AllSpace(s) {
        assert AllSpace(t) by {
          forall i | 0 <= i < |t| ensures IsSpace(t[i]) {
            assert t[i] == s[i + 1];
          }
        }
      }
    } else {
      assert s[..0] == [];
    }
  }

  /** What `TrimEnd` leaves is a prefix of `s` that does not end with white space,
      and everything it dropped is white space. */
  lemma {:induction false} TrimEndSpec(s: string)
    ensures |TrimEnd(s)| <= |s| && TrimEnd(s) == s[..|TrimEnd(s)|]
    ensures AllSpace(s[|TrimEnd(s)|..])
    ensures TrimEnd(s) == [] || !IsSpace(TrimEnd(s)[|TrimEnd(s)| - 1])
  {
    if s != [] && IsSpace(s[|s| - 1]) {
      var t := s[..|s| - 1];
      TrimEndSpec(t);
      var k := |TrimEnd(t)|;
      assert t[..k] == s[..k];
      forall i | 0 <= i < |s| - k ensures IsSpace(s[k..][i]) {
        if i < |t| - k {
          assert s[k..][i] == t[k..][i];
        }
      }
    } else {
      assert s[|s|..] == [];
    }
  }

  /** `s.trim()`. */
  function Trim(s: string): (r: string)
  {
    TrimEnd(TrimStart(s))
  }

  /** `!s.trim()`: the empty string is falsy. */
  predicate IsBlank(s: string) {
    Trim(s) == []
  }

  /** A string is blank exactly when every character in it is white space. */
  lemma BlankIffAllSpace(s: string)
    ensures IsBlank(s) <==> AllSpace(s)
  {
    var t := TrimStart(s);
    TrimStartSpec(s);
    TrimEndSpec(t);
    if IsBlank(s) {
      // the trailing pass removed all of `t`, so `t` is white space; it cannot
      // start with white space, so it is empty and `s` was dropped whole
      assert t == t[|TrimEnd(t)|..];
      assert s[..|s| - |t|] == s;
    }
  }

  /** Leading white space never reaches the result of `TrimStart`. */
  lemma {:induction false} TrimStartSkipsSpace(p: string, s: string)
    requires AllSpace(p)
    ensures TrimStart(p + s) == TrimStart(s)
  {
    if p != [] {
      assert (p + s)[1..] == p[1..] + s;
      TrimStartSkipsSpace(p[1..], s);
    } else {
      assert p + s == s;
    }
  }

  /** Once a non-blank text has lost its leading white space, what follows it is kept. */
  lemma {:induction false} TrimStartKeepsTail(s: string, q: string)
    requires !AllSpace(s)
    ensures TrimStart(s + q) == TrimStart(s) + q
  {
    assert s != [];
    assert (s + q)[0] == s[0];
    if IsSpace(s[0]) {
      assert (s + q)[1..] == s[1..] + q;
      assert !AllSpace(s[1..]) by {
        var i :| 0 <= i < |s| && !IsSpace(s[i]);
        assert s[1..][i - 1] == s[i];
      }
      TrimStartKeepsTail(s[1..], q);
    }
  }

  /** Trailing white space never reaches the result of `TrimEnd`. */
  lemma {:induction false} TrimEndSkipsSpace(s: string, q: string)
    requires AllSpace(q)
    ensures TrimEnd(s + q) == TrimEnd(s)
  {
    if q != [] {
      var q' := q[..|q| - 1];
      assert (s + q)[|s + q| - 1] == q[|q| - 1];
      assert (s + q)[..|s + q| - 1] == s + q';
      assert AllSpace(q') by {
        forall i | 0 <= i < |q'| ensures IsSpace(q'[i]) { assert q'[i] == q[i]; }
      }
      TrimEndSkipsSpace(s, q');
    } else {
      assert s + q == s;
    }
  }

  /** White space around a text does not change what `trim` gives back. */
  lemma TrimIgnoresSurroundingSpace(p: string, s: string, q: string)
    requires AllSpace(p) && AllSpace(q)
    ensures Trim(p + s + q) == Trim(s)
  {
    assert p + s + q == p + (s + q);
    TrimStartSkipsSpace(p, s + q);
    if AllSpace(s) {
      assert AllSpace(s + q);
      BlankIffAllSpace(s);
      BlankIffAllSpace(s + q);
      assert TrimEnd(TrimStart(s)) == [];
      assert TrimEnd(TrimStart(s + q)) == [];
    } else {
      TrimStartKeepsTail(s, q);
      TrimEndSkipsSpace(TrimStart(s), q);
    }
  }
}
