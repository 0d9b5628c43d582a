/** Writing is exact: a sequence of strings is written just when its whole length fits. */
module NarWriting {
  import opened NarFormat
  import opened NarEncoding

  ghost predicate Room(s: State, n: nat) {
    |s.out| + n <= s.limits.maxTotalBytes
  }

  function Wrote(s: State, b: bytes): State {
    s.(out := s.out + b)
  }

  lemma StrExact(s: State, v: bytes)
    ensures PutStr(s, v).Done? <==> Room(s, |Str(v)|)
    ensures PutStr(s, v).Done? ==> PutStr(s, v).st == Wrote(s, Str(v))
  {
    assert ((s.out + Le64(|v|)) + v) + Zeros(PadLength(|v|)) == s.out + Str(v);
  }

  lemma WroteTwice(s: State, a: bytes, b: bytes)
    ensures Wrote(Wrote(s, a), b) == Wrote(s, a + b)
  {
    Assoc(s.out, a, b);
  }

  lemma HeadExact(s: State, kind: RootKind)
    ensures PutHead(s, kind).Done? <==> Room(s, |Head(kind)|)
    ensures PutHead(s, kind).Done? ==> PutHead(s, kind).st == Wrote(s, Head(kind))
  {
    hide PutStr, Str, Wrote;
    StrExact(s, OPEN);
    var s1 := Wrote(s, Str(OPEN));
    StrExact(s1, TYPE);
    StrExact(Wrote(s1, Str(TYPE)), KindName(kind));
    WroteTwice(s1, Str(TYPE), Str(KindName(kind)));
    WroteTwice(s, Str(OPEN), Str(TYPE) + Str(KindName(kind)));
    WroteFrame(s, Str(OPEN));
    WroteFrame(s1, Str(TYPE));
  }

  lemma WroteFrame(s: State, b: bytes)
    ensures |Wrote(s, b).out| == |s.out| + |b| && Wrote(s, b).limits == s.limits
  {
  }

  lemma EntryHeadExact(s: State, name: bytes)
    ensures PutEntryHead(s, name).Done? <==> Room(s, |EntryHead(name)|)
    ensures PutEntryHead(s, name).Done? ==> PutEntryHead(s, name).st == Wrote(s, EntryHead(name))
  {
    hide PutStr, Str, Wrote;
    var a, b, c, d, e := Str(ENTRY), Str(OPEN), Str(NAME), Str(name), Str(NODE);
    var s1 := Wrote(s, a);
    var s2 := Wrote(s1, b);
    var s3 := Wrote(s2, c);
    var s4 := Wrote(s3, d);
    StrExact(s, ENTRY);
    StrExact(s1, OPEN);
    StrExact(s2, NAME);
    StrExact(s3, name);
    StrExact(s4, NODE);
    WroteFrame(s, a);
    WroteFrame(s1, b);
    WroteFrame(s2, c);
    WroteFrame(s3, d);
    WroteTwice(s2, c, d);
    WroteTwice(s1, b, c + d);
    WroteTwice(s, a, b + (c + d));
    WroteTwice(s, EntryName(name), e);
  }

  lemma FileHeadExact(s: State, x: bool, size: nat)
    ensures PutFileHead(s, x, size).Done? <==> Room(s, |FileHead(x)| + 8)
    ensures PutFileHead(s, x, size).Done? ==>
              PutFileHead(s, x, size).st == Wrote(s, FileHead(x) + Le64(size))
  {
    hide PutStr, Str, Wrote, Le64;
    if x {
      var a, b, c := Str(EXECUTABLE), Str([]), Str(CONTENTS);
      var s1 := Wrote(s, a);
      var s2 := Wrote(s1, b);
      StrExact(s, EXECUTABLE);
      StrExact(s1, []);
      StrExact(s2, CONTENTS);
      WroteFrame(s, a);
      WroteFrame(s1, b);
      WroteFrame(s2, c);
      WroteTwice(s1, b, c);
      WroteTwice(s, a, b + c);
    } else {
      StrExact(s, CONTENTS);
      WroteFrame(s, Str(CONTENTS));
    }
    WroteTwice(s, FileHead(x), Le64(size));
    PutExact(Wrote(s, FileHead(x)), Le64(size));
  }

  lemma PutExact(s: State, b: bytes)
    ensures Put(s, b).Done? <==> Room(s, |b|)
    ensures Put(s, b).Done? ==> Put(s, b).st == Wrote(s, b)
  {
  }
}
