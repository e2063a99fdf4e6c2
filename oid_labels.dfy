/**
  OIDs as lists of labels. An OID names a node of the management tree by the
  labels on the path from the root; its text puts a dot before each label.
  This module gives that reading independently of the character-level check
  in SnmpUtil and proves that the two agree: the check accepts exactly the
  texts of non-empty label lists, "part of" is "label-list prefix", and the
  row index is the text of the labels that follow the column's own.
*/
module OidLabels {
  import opened SnmpUtil

  /** One label of an OID: a non-empty run of decimal digits. */
  predicate IsLabel(l: string) {
    |l| > 0 && forall i :: 0 <= i < |l| ==> IsDigit(l[i])
  }

  predicate AllLabels(ls: seq<string>) {
    forall i :: 0 <= i < |ls| ==> IsLabel(ls[i])
  }

  /** The text of a label list: every label preceded by a dot. */
  function Dotted(ls: seq<string>): (s: string)
    ensures s == [] <==> ls == []
    ensures s != [] ==> s[0] == '.'
  {
    if ls == [] then "" else "." + ls[0] + Dotted(ls[1..])
  }

  lemma {:induction false} DottedAppend(a: seq<string>, b: seq<string>)
    ensures Dotted(a + b) == Dotted(a) + Dotted(b)
  {
    if a == [] {
      assert a + b == b;
    } else {
      assert (a + b)[1..] == a[1..] + b;
      DottedAppend(a[1..], b);
    }
  }

  /** The text of a non-empty label list passes the OID check. */
  lemma {:induction false} DottedWellFormed(ls: seq<string>)
    requires ls != [] && AllLabels(ls)
    ensures WellFormedOid(Dotted(ls))
  {
    var l := ls[0];
    var head := "." + l;
    assert IsLabel(l);
    forall i | 1 <= i < |head| ensures OidCharAt(head, i) {
      assert head[i] == l[i - 1];
    }
    assert WellFormedOid(head);
    if ls[1..] == [] {
      assert Dotted(ls) == head;
    } else {
      assert AllLabels(ls[1..]) by {
        forall i | 0 <= i < |ls[1..]| ensures IsLabel(ls[1..][i]) {
          assert ls[1..][i] == ls[i + 1];
        }
      }
      DottedWellFormed(ls[1..]);
      WellFormedConcat(head, Dotted(ls[1..]));
      assert Dotted(ls) == head + Dotted(ls[1..]);
    }
  }

  /** The position of the first dot in `s` at or after `i`, or `|s|` if none. */
  function NextDot(s: string, i: nat): (j: nat)
    requires i <= |s|
    ensures i <= j <= |s|
    ensures forall k :: i <= k < j ==> s[k] != '.'
    ensures j < |s| ==> s[j] == '.'
    decreases |s| - i
  {
    if i == |s| || s[i] == '.' then i else NextDot(s, i + 1)
  }

  /** The labels of an OID, read off its text from left to right. */
  function Labels(s: string): (ls: seq<string>)
    requires WellFormedOid(s)
    ensures ls != [] && AllLabels(ls) && Dotted(ls) == s
    decreases |s|
  {
    var j := NextDot(s, 1);
    assert OidCharAt(s, 1);
    var l := s[1..j];
    assert IsLabel(l) by {
      forall k | 0 <= k < |l| ensures IsDigit(l[k]) {
        assert l[k] == s[k + 1];
        assert OidCharAt(s, k + 1);
      }
    }
    if j == |s| then
      assert s == "." + l;
      [l]
    else
      WellFormedSuffix(s, j);
      var rest := Labels(s[j..]);
      var ls := [l] + rest;
      assert ls[1..] == rest;
      assert s == "." + l + s[j..] by {
        assert s == s[..1] + s[1..j] + s[j..];
      }
      assert AllLabels(ls) by {
        forall i | 0 <= i < |ls| ensures IsLabel(ls[i]) {
          if i > 0 { assert ls[i] == rest[i - 1]; }
        }
      }
      ls
  }

  /** The OID check accepts exactly the texts of non-empty label lists. */
  lemma WellFormedIffLabels(s: string)
    ensures WellFormedOid(s) <==> exists ls :: ls != [] && AllLabels(ls) && Dotted(ls) == s
  {
    if WellFormedOid(s) {
      var ls := Labels(s);
      assert Dotted(ls) == s;
    }
    if exists ls :: ls != [] && AllLabels(ls) && Dotted(ls) == s {
      var ls :| ls != [] && AllLabels(ls) && Dotted(ls) == s;
      DottedWellFormed(ls);
    }
  }

  /** A label followed by a dot or by nothing ends where the first dot is. */
  lemma {:induction false} LabelEndsAtDot(m: string, x: string, i: nat)
    requires IsLabel(m) && (x == [] || x[0] == '.') && i <= |m|
    ensures NextDot(m + x, i) == |m|
    decreases |m| - i
  {
    var s := m + x;
    if i < |m| {
      assert s[i] == m[i];
      LabelEndsAtDot(m, x, i + 1);
    } else if x != [] {
      assert s[i] == x[0];
    }
  }

  /** Two labels each followed by a dot or by nothing cannot overlap: equal
      texts split at the first dot into equal labels and equal rests. */
  lemma SameLeadingLabel(m: string, x: string, l: string, y: string)
    requires IsLabel(m) && IsLabel(l)
    requires x == [] || x[0] == '.'
    requires y == [] || y[0] == '.'
    requires m + x == l + y
    ensures m == l && x == y
  {
    var s := m + x;
    LabelEndsAtDot(m, x, 0);
    LabelEndsAtDot(l, y, 0);
    assert m == s[..|m|] && l == s[..|l|];
    assert x == s[|m|..] && y == s[|l|..];
  }

  lemma AllLabelsTail(ls: seq<string>)
    requires ls != [] && AllLabels(ls)
    ensures IsLabel(ls[0]) && AllLabels(ls[1..])
  {
  }

  /** Splitting the text of a non-empty label list after its leading dot. */
  lemma DottedUnfold(ls: seq<string>, rest: string)
    requires ls != []
    ensures (Dotted(ls) + rest)[1..] == ls[0] + (Dotted(ls[1..]) + rest)
  {
  }

  /** The core of the label-boundary property: when the text of `b`, followed
      by a dot or by nothing, begins the text of `a`, then `b` is a prefix of
      `a` and the remaining text is that of the remaining labels. */
  lemma {:induction false} DottedPrefix(a: seq<string>, b: seq<string>, rest: string)
    requires AllLabels(a) && AllLabels(b)
    requires Dotted(a) == Dotted(b) + rest
    requires rest == [] || rest[0] == '.'
    ensures |b| <= |a| && a[..|b|] == b && Dotted(a[|b|..]) == rest
  {
    if b == [] {
      assert a[..0] == b && a[0..] == a;
    } else {
      assert a != [];
      var ta, tb := Dotted(a[1..]), Dotted(b[1..]);
      AllLabelsTail(a);
      AllLabelsTail(b);
      DottedUnfold(a, []);
      DottedUnfold(b, rest);
      assert Dotted(a) + [] == Dotted(a) && ta + [] == ta;
      SameLeadingLabel(a[0], ta, b[0], tb + rest);
      DottedPrefix(a[1..], b[1..], rest);
      assert a[..|b|] == [a[0]] + a[1..][..|b| - 1];
      assert b == [b[0]] + b[1..];
      assert a[|b|..] == a[1..][|b| - 1..];
    }
  }

  /** A label list extended by more labels is an OID below the original. */
  lemma {:induction false} LabelPrefixIsPartOf(a: seq<string>, b: seq<string>)
    requires a != [] && AllLabels(a) && b != [] && AllLabels(b)
    requires |b| <= |a| && a[..|b|] == b
    ensures IsOidPartOf(Dotted(a), Dotted(b))
  {
    DottedWellFormed(a);
    DottedWellFormed(b);
    assert a == b + a[|b|..];
    DottedAppend(b, a[|b|..]);
    var oid, base := Dotted(a), Dotted(b);
    assert oid == base + Dotted(a[|b|..]);
    assert oid[..|base|] == base;
  }

  /** An OID below another one carries the other's labels as a prefix. */
  lemma {:induction false} PartOfIsLabelPrefix(a: seq<string>, b: seq<string>)
    requires AllLabels(a) && AllLabels(b)
    requires IsOidPartOf(Dotted(a), Dotted(b))
    ensures |b| <= |a| && a[..|b|] == b
  {
    var oid, base := Dotted(a), Dotted(b);
    var rest := oid[|base|..];
    assert oid == base + rest;
    DottedPrefix(a, b, rest);
  }

  /** The label-list reading of IsOidPartOf: one OID is part of another
      exactly when the other's labels are a prefix of its own. */
  lemma {:induction false} PartOfIffLabelPrefix(a: seq<string>, b: seq<string>)
    requires a != [] && AllLabels(a) && b != [] && AllLabels(b)
    ensures IsOidPartOf(Dotted(a), Dotted(b)) <==> |b| <= |a| && a[..|b|] == b
  {
    if IsOidPartOf(Dotted(a), Dotted(b)) {
      PartOfIsLabelPrefix(a, b);
    }
    if |b| <= |a| && a[..|b|] == b {
      LabelPrefixIsPartOf(a, b);
    }
  }

  /** Equal OID texts mean equal label lists. */
  lemma {:induction false} DottedInjective(a: seq<string>, b: seq<string>)
    requires AllLabels(a) && AllLabels(b) && Dotted(a) == Dotted(b)
    ensures a == b
  {
    assert Dotted(a) == Dotted(b) + [];
    DottedPrefix(a, b, []);
    assert a == a[..|b|] + a[|b|..];
  }

  /** An accepted OID has exactly one split into labels: the one `Labels` reads. */
  lemma {:induction false} LabelsUnique(s: string, ls: seq<string>)
    requires AllLabels(ls) && Dotted(ls) == s
    requires WellFormedOid(s)
    ensures ls == Labels(s)
  {
    DottedInjective(ls, Labels(s));
  }

  /** The row index that GetSubOid derives is the text of the labels of `oid`
      that follow those of the column OID, without its leading dot. */
  lemma {:induction false} RowIndexIsRemainingLabels(a: seq<string>, b: seq<string>)
    requires a != [] && AllLabels(a) && b != [] && AllLabels(b)
    requires |b| < |a| && a[..|b|] == b
    ensures GetSubOid(Dotted(a), Dotted(b)) == Dotted(a[|b|..])[1..]
  {
    PartOfIffLabelPrefix(a, b);
    assert a == b + a[|b|..];
    DottedAppend(b, a[|b|..]);
    var oid, base, tail := Dotted(a), Dotted(b), Dotted(a[|b|..]);
    assert oid == base + tail && |tail| > 0;
    assert base + "." + GetSubOid(oid, base) == oid;
    assert tail == oid[|base|..];
  }
}
