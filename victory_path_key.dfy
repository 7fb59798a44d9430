/** The text key under which victory paths are counted (helpers/stats/key.go): nine labelled
    decimal fields separated by single spaces. */
module VictoryPathKey {
  import opened Text
  import opened Models

  predicate NoSpace(s: string)
  {
    forall k :: 0 <= k < |s| ==> s[k] != ' '
  }

  /** One `name:%d` field. */
  function Field(name: string, v: int): string
  {
    name + ":" + IntToString(v)
  }

  /** FormatVictoryPathKey: `S1:%d S2:%d Sec:%d Cust:%d Imp:%d Rel:%d Ag:%d AC:%d Sup:%d`. */
  function FormatVictoryPathKey(vp: VictoryPath): string
  {
    Field("S1", vp.stage1Points) + " " + (Field("S2", vp.stage2Scored) + " " + (
    Field("Sec", vp.secretPoints) + " " + (Field("Cust", vp.custodians) + " " + (
    Field("Imp", vp.imperial) + " " + (Field("Rel", vp.relics) + " " + (
    Field("Ag", vp.agenda) + " " + (Field("AC", vp.actionCard) + " " + Field("Sup", vp.support))))))))
  }

  /** A printed integer holds no space. */
  lemma IntToStringNoSpace(i: int)
    ensures NoSpace(IntToString(i))
  {
    var s := IntToString(i);
    forall k | 0 <= k < |s| ensures s[k] != ' ' {
      if i < 0 && k > 0 {
        assert s[k] == s[1..][k - 1];
      }
    }
  }

  /** A field under a space-free label holds no space. */
  lemma FieldNoSpace(l: string, v: int)
    requires NoSpace(l)
    ensures NoSpace(Field(l, v))
  {
    IntToStringNoSpace(v);
    var u := Field(l, v);
    forall k | 0 <= k < |u| ensures u[k] != ' ' {
      if k > |l| {
        assert u[k] == IntToString(v)[k - |l| - 1];
      }
    }
  }

  /** A field can be read back from its text. */
  lemma FieldInjective(l: string, a: int, b: int)
    requires Field(l, a) == Field(l, b)
    ensures a == b
  {
    var n := |l| + 1;
    assert IntToString(a) == Field(l, a)[n..];
    assert IntToString(b) == Field(l, b)[n..];
    IntToStringInjective(a, b);
  }

  /** Peels the leading field off two equal texts: the fields' values and the rests agree. */
  lemma Peel(l: string, a: int, x: string, b: int, y: string)
    requires NoSpace(l)
    requires Field(l, a) + " " + x == Field(l, b) + " " + y
    ensures a == b && x == y
  {
    FieldNoSpace(l, a);
    FieldNoSpace(l, b);
    SplitAtFirstSpace(Field(l, a), x, Field(l, b), y);
    FieldInjective(l, a, b);
  }

  lemma LabelsNoSpace()
    ensures NoSpace("S1") && NoSpace("S2") && NoSpace("Sec") && NoSpace("Cust") && NoSpace("Imp")
    ensures NoSpace("Rel") && NoSpace("Ag") && NoSpace("AC")
  {
  }

  /** Two paths share a key only when they are the same path, so counting keys counts paths. */
  lemma KeyInjective(p: VictoryPath, q: VictoryPath)
    requires FormatVictoryPathKey(p) == FormatVictoryPathKey(q)
    ensures p == q
  {
    var p8, q8 := Field("AC", p.actionCard) + " " + Field("Sup", p.support), Field("AC", q.actionCard) + " " + Field("Sup", q.support);
    var p7, q7 := Field("Ag", p.agenda) + " " + p8, Field("Ag", q.agenda) + " " + q8;
    var p6, q6 := Field("Rel", p.relics) + " " + p7, Field("Rel", q.relics) + " " + q7;
    var p5, q5 := Field("Imp", p.imperial) + " " + p6, Field("Imp", q.imperial) + " " + q6;
    var p4, q4 := Field("Cust", p.custodians) + " " + p5, Field("Cust", q.custodians) + " " + q5;
    var p3, q3 := Field("Sec", p.secretPoints) + " " + p4, Field("Sec", q.secretPoints) + " " + q4;
    var p2, q2 := Field("S2", p.stage2Scored) + " " + p3, Field("S2", q.stage2Scored) + " " + q3;
    LabelsNoSpace();
    Peel("S1", p.stage1Points, p2, q.stage1Points, q2);
    Peel("S2", p.stage2Scored, p3, q.stage2Scored, q3);
    Peel("Sec", p.secretPoints, p4, q.secretPoints, q4);
    Peel("Cust", p.custodians, p5, q.custodians, q5);
    Peel("Imp", p.imperial, p6, q.imperial, q6);
    Peel("Rel", p.relics, p7, q.relics, q7);
    Peel("Ag", p.agenda, p8, q.agenda, q8);
    Peel("AC", p.actionCard, Field("Sup", p.support), q.actionCard, Field("Sup", q.support));
    FieldInjective("Sup", p.support, q.support);
  }
}
