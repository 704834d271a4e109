/** Access units as an encoder writes them, and that reading a file of them undoes the writing. */
module H264Units {
  import opened Bytes
  import H = H264File

  /** A NAL unit after its start code, which is 00 00 01 or 00 00 00 01. */
  datatype Nal = Nal(long: bool, header: byte, body: seq<byte>)
  {
    function Code(): seq<byte> {
      if long then [0, 0, 0, 1] else [0, 0, 1]
    }
    function Written(): seq<byte> {
      Code() + [header] + body
    }
    function Kind(): nat {
      header % 32
    }
    predicate Slice() {
      Kind() == 1 || Kind() == 5
    }
    /** The type is not zero, and there is no start code inside. A body may end in zeros. */
    predicate Valid() {
      Kind() != 0 && forall k :: 2 <= k < |body| && body[k] == 1 ==> body[k - 1] != 0 || body[k - 2] != 0
    }
    /** The first slice of a picture: the macroblock number that it begins with is zero, in one bit. Some header
        follows, so there is more than a byte. */
    predicate Leads() {
      Slice() && |body| >= 2 && body[0] >= 128
    }
    /** SEI, SPS or PPS. */
    predicate Prepares() {
      Kind() == 6 || Kind() == 7 || Kind() == 8
    }
    /** Anything else that belongs to a picture: its other slices, say. */
    predicate Follows() {
      !Prepares() && (Slice() ==> |body| >= 1 && body[0] < 128)
    }
  }

  function Stream(ns: seq<Nal>): seq<byte> {
    if ns == [] then [] else ns[0].Written() + Stream(ns[1..])
  }

  /** What an encoder writes for one picture. */
  datatype Unit = Unit(before: seq<Nal>, first: Nal, more: seq<Nal>)
  {
    function Nals(): seq<Nal> {
      before + [first] + more
    }
    function Written(): seq<byte> {
      Stream(Nals())
    }
    predicate Valid() {
      && (forall n :: n in Nals() ==> n.Valid())
      && (forall n :: n in before ==> n.Prepares()) && first.Leads() && (forall n :: n in more ==> n.Follows())
    }
  }

  function AllNals(us: seq<Unit>): seq<Nal> {
    if us == [] then [] else us[0].Nals() + AllNals(us[1..])
  }

  function AllWritten(us: seq<Unit>): (r: seq<seq<byte>>)
    ensures |r| == |us| && forall k :: 0 <= k < |us| ==> r[k] == us[k].Written()
  {
    seq(|us|, k requires 0 <= k < |us| => us[k].Written())
  }

  function File(us: seq<Unit>): seq<byte> {
    Flatten(AllWritten(us))
  }

  lemma {:induction false} StreamAppend(a: seq<Nal>, b: seq<Nal>)
    ensures Stream(a + b) == Stream(a) + Stream(b)
  {
    if a == [] {
      assert a + b == b;
    } else {
      assert (a + b)[1..] == a[1..] + b;
      StreamAppend(a[1..], b);
      AppendAssociates(a[0].Written(), Stream(a[1..]), Stream(b));
    }
  }

  // ---- Where start codes are ----

  function Offset(ns: seq<Nal>, j: nat): nat
    requires j <= |ns|
  {
    |Stream(ns[..j])|
  }

  predicate AllValid(ns: seq<Nal>) {
    forall j :: 0 <= j < |ns| ==> ns[j].Valid()
  }

  lemma StreamBegins(ns: seq<Nal>)
    requires ns != []
    ensures var s := Stream(ns);
            |s| >= 4 && s[0] == s[1] == 0 && (if ns[0].long then s[2] == 0 && s[3] == 1 else s[2] == 1)
  {
    var n := ns[0];
    assert Stream(ns)[..|n.Code()|] == n.Code();
    assert forall i :: 0 <= i < |n.Code()| ==> Stream(ns)[i] == n.Code()[i];
  }

  /** A start code is that of a NAL unit: its own position, inside a long one, or a zero before a short one. */
  predicate CodeOf(ns: seq<Nal>, k: nat, j: nat)
    requires j < |ns| && k + 3 < |Stream(ns)|
  {
    && k + H.CodeAt(Stream(ns), k) == Offset(ns, j) + |ns[j].Code()|
    && (k == Offset(ns, j) || (k == Offset(ns, j) + 1 && ns[j].long)
        || (k + 1 == Offset(ns, j) && Stream(ns)[k] == 0 && !ns[j].long))
  }

  lemma {:induction false} CodesAreOfNals(ns: seq<Nal>, k: nat) returns (j: nat)
    requires AllValid(ns) && k + 3 < |Stream(ns)| && H.CodeAt(Stream(ns), k) > 0
    ensures j < |ns| && CodeOf(ns, k, j)
    decreases |ns|
  {
    var n, rest := ns[0], Stream(ns[1..]);
    var len := |n.Written()|;
    if k < len {
      j := CodeOfFirst(ns, k);
    } else {
      assert Stream(ns)[len..] == rest;
      Suffix(Stream(ns), len, k);
      j := CodesAreOfNals(ns[1..], k - len);
      NextOffset(ns, j);
      j := j + 1;
    }
  }

  lemma NextOffset(ns: seq<Nal>, j: nat)
    requires j < |ns|
    ensures Offset(ns, j + 1) == |ns[0].Written()| + Offset(ns[1..], j)
  {
    assert ns[..j + 1][1..] == ns[1..][..j];
  }

  lemma Suffix(d: seq<byte>, a: nat, k: nat)
    requires a <= k && k + 3 < |d|
    ensures H.CodeAt(d[a..], k - a) == H.CodeAt(d, k)
  {
  }

  /** In the first NAL unit there is its own start code, and its last zero may belong to the next. */
  lemma CodeOfFirst(ns: seq<Nal>, k: nat) returns (j: nat)
    requires ns != [] && AllValid(ns) && k < |ns[0].Written()| && k + 3 < |Stream(ns)|
    requires H.CodeAt(Stream(ns), k) > 0
    ensures j < |ns| && CodeOf(ns, k, j)
  {
    var n, s, c := ns[0], Stream(ns), |ns[0].Code()|;
    var len := |n.Written()|;
    assert forall i :: 0 <= i < len ==> s[i] == n.Written()[i];
    assert n.header != 0;
    assert ns[..0] == [];
    StreamBegins(ns);
    if k <= c {
      j := 0;
    } else {
      InBody(ns, k);
      NextOffset(ns, 0);
      j := 1;
    }
  }

  /** A byte of the stream behind the header of the first NAL unit. */
  lemma At(ns: seq<Nal>, i: nat)
    requires ns != [] && |ns[0].Code()| < i < |Stream(ns)|
    ensures var n, len := ns[0], |ns[0].Written()|;
            Stream(ns)[i] == if i < len then n.body[i - |n.Code()| - 1] else Stream(ns[1..])[i - len]
  {
    assert Stream(ns)[i] == (ns[0].Written() + Stream(ns[1..]))[i];
  }

  lemma InBody(ns: seq<Nal>, k: nat)
    requires ns != [] && AllValid(ns) && |ns[0].Code()| < k < |ns[0].Written()| && k + 3 < |Stream(ns)|
    requires H.CodeAt(Stream(ns), k) > 0
    ensures |ns| > 1 && k + 1 == |ns[0].Written()| && Stream(ns)[k] == 0 && !ns[1].long
    ensures H.CodeAt(Stream(ns), k) == 4
  {
    At(ns, k);
    At(ns, k + 1);
    At(ns, k + 2);
    At(ns, k + 3);
    if k + 3 >= |ns[0].Written()| {
      assert |ns| > 1;
      StreamBegins(ns[1..]);
    } else {
      NoCodeDeep(ns, k);
    }
  }

  lemma NoCodeDeep(ns: seq<Nal>, k: nat)
    requires ns != [] && ns[0].Valid() && |ns[0].Code()| < k && k + 3 < |ns[0].Written()|
    ensures k + 3 < |Stream(ns)| && H.CodeAt(Stream(ns), k) == 0
  {
    var b := k - |ns[0].Code()| - 1;
    assert Stream(ns)[k..k + 4] == ns[0].Written()[k..k + 4] == ns[0].body[b..b + 4];
    assert ns[0].body[b + 2] == Stream(ns)[k..k + 4][2] && ns[0].body[b + 3] == Stream(ns)[k..k + 4][3];
    assert ns[0].body[b] == Stream(ns)[k..k + 4][0] && ns[0].body[b + 1] == Stream(ns)[k..k + 4][1];
  }

  // ---- What the scans see ----

  /** Of the NAL units of pictures. */
  predicate Known(ns: seq<Nal>) {
    AllValid(ns) && forall j :: 0 <= j < |ns| ==> ns[j].Prepares() || ns[j].Leads() || ns[j].Follows()
  }

  lemma SplitStream(ns: seq<Nal>, j: nat)
    requires j <= |ns|
    ensures Stream(ns) == Stream(ns[..j]) + Stream(ns[j..])
  {
    assert ns == ns[..j] + ns[j..];
    StreamAppend(ns[..j], ns[j..]);
  }

  lemma OffsetsGrow(ns: seq<Nal>, i: nat, j: nat)
    requires i < j <= |ns|
    ensures Offset(ns, i) + |ns[i].Written()| <= Offset(ns, j) <= |Stream(ns)|
  {
    SplitStream(ns, j);
    SplitStream(ns[..j], i);
    assert ns[..j][..i] == ns[..i] && ns[..j][i..][0] == ns[i];
  }

  /** The bytes that the scans test, header and what follows it. */
  lemma HeaderAt(ns: seq<Nal>, j: nat)
    requires j < |ns|
    ensures var s, h := Stream(ns), Offset(ns, j) + |ns[j].Code()|;
            && h < |s| && s[h] == ns[j].header
            && (ns[j].body != [] ==> h + 1 < |s| && s[h + 1] == ns[j].body[0])
            && s[Offset(ns, j)..] == Stream(ns[j..])
  {
    SplitStream(ns, j);
    var t := Stream(ns[j..]);
    assert t[|ns[j].Code()|] == ns[j].Written()[|ns[j].Code()|];
    if ns[j].body != [] {
      assert t[|ns[j].Code()| + 1] == ns[j].Written()[|ns[j].Code()| + 1];
    }
  }

  lemma CodeBefore(ns: seq<Nal>, j: nat)
    requires j < |ns| && Offset(ns, j) + 3 < |Stream(ns)|
    ensures H.CodeAt(Stream(ns), Offset(ns, j)) == |ns[j].Code()|
    ensures Offset(ns, j) > 0 && Stream(ns)[Offset(ns, j) - 1] == 0 && !ns[j].long ==>
              H.CodeAt(Stream(ns), Offset(ns, j) - 1) == 4
  {
    HeaderAt(ns, j);
    StreamBegins(ns[j..]);
    var s, o := Stream(ns), Offset(ns, j);
    assert forall i :: 0 <= i < 4 ==> s[o + i] == s[o..][i];
    assert s[o] == s[o + 0] && s[o + 1] == 0;
  }

  /** What the scans make of the bytes of a NAL unit. */
  lemma Tested(d: seq<byte>, k: nat, n: Nal)
    requires H.Seen(d, k) && H.CodeAt(d, k) > 0 && d[k + H.CodeAt(d, k)] == n.header
    requires n.body != [] ==> d[k + H.CodeAt(d, k) + 1] == n.body[0]
    requires n.Prepares() || n.Leads() || n.Follows()
    ensures H.FirstSlice(d, k) <==> n.Leads()
    ensures H.NextUnit(d, k) <==> n.Leads() || n.Prepares()
  {
  }

  /** The scans take a position for what its NAL unit is. */
  lemma SeenAsWritten(ns: seq<Nal>, k: nat, j: nat)
    requires Known(ns) && j < |ns| && H.Seen(Stream(ns), k) && CodeOf(ns, k, j) && H.CodeAt(Stream(ns), k) > 0
    ensures H.FirstSlice(Stream(ns), k) <==> ns[j].Leads()
    ensures H.NextUnit(Stream(ns), k) <==> ns[j].Leads() || ns[j].Prepares()
  {
    HeaderAt(ns, j);
    Tested(Stream(ns), k, ns[j]);
  }

  lemma SeenAtCode(ns: seq<Nal>, j: nat)
    requires Known(ns) && j < |ns| && H.Seen(Stream(ns), Offset(ns, j))
    ensures var s, o := Stream(ns), Offset(ns, j);
            && (H.FirstSlice(s, o) <==> ns[j].Leads()) && (H.NextUnit(s, o) <==> ns[j].Leads() || ns[j].Prepares())
            && (o > 0 && s[o - 1] == 0 && !ns[j].long ==>
                  (H.NextUnit(s, o - 1) <==> ns[j].Leads() || ns[j].Prepares()))
  {
    CodeBefore(ns, j);
    var s, o := Stream(ns), Offset(ns, j);
    SeenAsWritten(ns, o, j);
    if o > 0 && s[o - 1] == 0 && !ns[j].long {
      SeenAsWritten(ns, o - 1, j);
    }
  }

  lemma SameInWindow(d: seq<byte>, s: seq<byte>, k: nat)
    requires d <= s && H.Seen(d, k)
    ensures H.FirstSlice(d, k) <==> H.FirstSlice(s, k)
    ensures H.NextUnit(d, k) <==> H.NextUnit(s, k)
  {
  }

  // ---- One read ----

  /** The NAL units of a picture, and those behind it. */
  ghost predicate Ahead(u: Unit, rest: seq<Nal>, d: seq<byte>) {
    && u.Valid() && Known(rest)
    && (rest != [] ==> rest[0].Leads() || rest[0].Prepares())
    && d <= Stream(u.Nals() + rest)
  }

  lemma AheadKnown(u: Unit, rest: seq<Nal>)
    requires u.Valid() && Known(rest)
    ensures Known(u.Nals() + rest)
    ensures (u.Nals() + rest)[|u.before|] == u.first
    ensures forall j :: 0 <= j < |u.before| ==> (u.Nals() + rest)[j].Prepares()
    ensures forall j :: |u.before| < j < |u.Nals()| ==> (u.Nals() + rest)[j].Follows()
    ensures rest != [] ==> (u.Nals() + rest)[|u.Nals()|] == rest[0]
  {
    var ns := u.Nals() + rest;
    forall j | 0 <= j < |ns|
      ensures ns[j].Valid() && (ns[j].Prepares() || ns[j].Leads() || ns[j].Follows())
      ensures j < |u.before| ==> ns[j].Prepares()
      ensures |u.before| < j < |u.Nals()| ==> ns[j].Follows()
    {
      if j < |u.Nals()| {
        assert ns[j] == u.Nals()[j] && ns[j] in u.Nals();
      } else {
        assert ns[j] == rest[j - |u.Nals()|];
      }
    }
  }

  function FirstAt(u: Unit): nat {
    |Stream(u.before)|
  }

  lemma Offsets(u: Unit, rest: seq<Nal>)
    ensures var ns := u.Nals() + rest;
            && Offset(ns, |u.before|) == FirstAt(u) && Offset(ns, |u.Nals()|) == |u.Written()|
            && FirstAt(u) + |u.first.Written()| <= |u.Written()| <= |Stream(ns)|
  {
    var ns := u.Nals() + rest;
    assert ns[..|u.before|] == u.before && ns[..|u.Nals()|] == u.Nals();
    OffsetsGrow(ns, |u.before|, |u.Nals()|);
    assert ns[|u.before|] == u.first;
  }

  /** Up to the first slice no other begins a picture. */
  lemma NoneBefore(u: Unit, rest: seq<Nal>, d: seq<byte>, k: nat)
    requires Ahead(u, rest, d) && k < FirstAt(u) && H.Seen(d, k) && H.FirstSlice(d, k)
    ensures k + 1 == FirstAt(u)
  {
    var ns := u.Nals() + rest;
    AheadKnown(u, rest);
    Offsets(u, rest);
    SameInWindow(d, Stream(ns), k);
    var j := CodesAreOfNals(ns, k);
    SeenAsWritten(ns, k, j);
    assert ns[j].Leads();
    if j > |u.before| {
      OffsetsGrow(ns, |u.before|, j);
    }
  }

  /** Behind the first slice nothing looks like another picture, up to a zero before the next. */
  lemma QuietInside(u: Unit, rest: seq<Nal>, d: seq<byte>, k: nat)
    requires Ahead(u, rest, d) && FirstAt(u) + 2 <= k < |u.Written()| && H.Seen(d, k) && H.NextUnit(d, k)
    ensures rest != [] && k + 1 == |u.Written()| && d[k] == 0 && !rest[0].long
  {
    var ns, m := u.Nals() + rest, |u.Nals()|;
    AheadKnown(u, rest);
    Offsets(u, rest);
    SameInWindow(d, Stream(ns), k);
    var j := CodesAreOfNals(ns, k);
    SeenAsWritten(ns, k, j);
    if j < |u.before| {
      OffsetsGrow(ns, j, |u.before|);
    }
    if j > m {
      OffsetsGrow(ns, m, j);
    }
  }

  lemma StartOf(u: Unit, rest: seq<Nal>, d: seq<byte>) returns (s: nat)
    requires Ahead(u, rest, d) && FirstAt(u) + 5 < |d|
    ensures H.StartsAt(d, s) && (s == FirstAt(u) || s + 1 == FirstAt(u))
  {
    var ns, p := u.Nals() + rest, FirstAt(u);
    AheadKnown(u, rest);
    Offsets(u, rest);
    SeenAtCode(ns, |u.before|);
    SameInWindow(d, Stream(ns), p);
    s := if p > 0 && H.FirstSlice(d, p - 1) then p - 1 else p;
    forall k: nat | k < s ensures !H.FirstSlice(d, k) {
      if H.FirstSlice(d, k) {
        NoneBefore(u, rest, d, k);
      }
    }
  }

  /** Nothing of one picture goes to the next. */
  predicate Clean(u: Unit, next: Nal) {
    next.long || u.Written() == [] || u.Written()[|u.Written()| - 1] != 0
  }

  /** A read that reaches far enough behind a picture cuts it off, unless its last zero joins the next start code. */
  lemma CutsExactly(u: Unit, rest: seq<Nal>, d: seq<byte>)
    requires Ahead(u, rest, d) && rest != [] && |u.Written()| + 5 < |d|
    ensures H.Cuts(d, |u.Written()|) <==> Clean(u, rest[0])
  {
    var e := |u.Written()|;
    Offsets(u, rest);
    var s := StartOf(u, rest, d);
    NextSeen(u, rest, d);
    if Clean(u, rest[0]) {
      forall k: nat | s + 4 <= k < e ensures !H.NextUnit(d, k) {
        NoneInside(u, rest, d, k);
      }
      assert H.CutAt(d, s, e);
    } else {
      NotCut(d, s, e);
    }
  }

  lemma NoneInside(u: Unit, rest: seq<Nal>, d: seq<byte>, k: nat)
    requires Ahead(u, rest, d) && rest != [] && |u.Written()| + 5 < |d| && Clean(u, rest[0])
    requires FirstAt(u) + 2 <= k < |u.Written()|
    ensures !H.NextUnit(d, k)
  {
    NextSeen(u, rest, d);
    if H.NextUnit(d, k) {
      QuietInside(u, rest, d, k);
    }
  }

  /** Where another unit is seen before, nothing is cut. */
  lemma NotCut(d: seq<byte>, s: nat, e: nat)
    requires H.StartsAt(d, s) && s + 5 <= e && H.Seen(d, e) && H.NextUnit(d, e - 1)
    ensures !H.Cuts(d, e)
  {
    forall t: nat ensures !H.CutAt(d, t, e) {
      assert H.CutAt(d, t, e) ==> t == s;
    }
  }

  /** The next picture begins where this one ends, and a byte earlier if a zero joins it. */
  lemma NextSeen(u: Unit, rest: seq<Nal>, d: seq<byte>)
    requires Ahead(u, rest, d) && rest != [] && |u.Written()| + 5 < |d|
    ensures var e := |u.Written()|;
            && e >= FirstAt(u) + 6 && H.NextUnit(d, e) && d[e - 1] == u.Written()[e - 1]
            && (!Clean(u, rest[0]) ==> H.NextUnit(d, e - 1))
  {
    var ns, e := u.Nals() + rest, |u.Written()|;
    AheadKnown(u, rest);
    Offsets(u, rest);
    SeenAtCode(ns, |u.Nals()|);
    SameInWindow(d, Stream(ns), e);
    SameInWindow(d, Stream(ns), e - 1);
    StreamAppend(u.Nals(), rest);
    assert Stream(ns)[e - 1] == u.Written()[e - 1];
  }

  /** At the end of the file there is a picture, and no next. */
  lemma LastEnds(u: Unit)
    requires u.Valid()
    ensures H.Ends(u.Written())
  {
    var d := u.Written();
    assert u.Nals() + [] == u.Nals();
    Offsets(u, []);
    var s := StartOf(u, [], d);
    forall k: nat | s + 4 <= k && H.Seen(d, k) ensures !H.NextUnit(d, k) {
      if H.NextUnit(d, k) {
        QuietInside(u, [], d, k);
      }
    }
    assert H.LastAt(d, s);
  }

  // ---- A whole pass ----

  predicate AllUnitsValid(us: seq<Unit>) {
    forall k :: 0 <= k < |us| ==> us[k].Valid()
  }

  /** No last zero of a picture joins the start code of the next. */
  predicate AllClean(us: seq<Unit>) {
    forall k :: 0 <= k && k + 1 < |us| ==> Clean(us[k], us[k + 1].Nals()[0])
  }

  /** The buffer has room for every picture and six bytes of the next. */
  predicate Room(us: seq<Unit>, bufSize: nat) {
    && (forall k :: 0 <= k < |us| ==> |us[k].Written()| <= bufSize)
    && (forall k :: 0 <= k < |us| - 1 ==> |us[k].Written()| + 6 <= bufSize)
  }

  lemma {:induction false} FileIsStream(us: seq<Unit>)
    ensures File(us) == Stream(AllNals(us))
  {
    if us != [] {
      assert AllWritten(us)[1..] == AllWritten(us[1..]);
      FileIsStream(us[1..]);
      StreamAppend(us[0].Nals(), AllNals(us[1..]));
    }
  }

  lemma {:induction false} AllNalsKnown(us: seq<Unit>)
    requires AllUnitsValid(us)
    ensures Known(AllNals(us))
    ensures us != [] ==> AllNals(us)[0] == us[0].Nals()[0] && (AllNals(us)[0].Leads() || AllNals(us)[0].Prepares())
  {
    if us != [] {
      AllNalsKnown(us[1..]);
      AheadKnown(us[0], AllNals(us[1..]));
    }
  }

  lemma FileFrom(us: seq<Unit>, k: nat)
    requires k < |us|
    ensures var a := H.Behind(AllWritten(us)[..k]);
            && a <= |File(us)| && File(us)[a..] == Stream(us[k].Nals() + AllNals(us[k + 1..]))
  {
    assert AllWritten(us) == AllWritten(us)[..k] + AllWritten(us[k..]);
    FlattenAppend(AllWritten(us)[..k], AllWritten(us[k..]));
    FileIsStream(us[k..]);
    assert us[k..][1..] == us[k + 1..];
  }

  /** What a read finds at the beginning of a picture. */
  lemma ReadsUnit(us: seq<Unit>, k: nat, bufSize: nat)
    requires AllUnitsValid(us) && k < |us|
    ensures var a, u := H.Behind(AllWritten(us)[..k]), us[k];
            && a <= |File(us)|
            && var d := H.Window(File(us), a, bufSize);
            && (k + 1 < |us| ==>
                  (H.Cuts(d, |u.Written()|) <==> Clean(u, us[k + 1].Nals()[0]) && |u.Written()| + 6 <= bufSize))
            && (k + 1 < |us| && H.Cuts(d, |u.Written()|) ==> d[..|u.Written()|] == u.Written())
            && (k + 1 == |us| && |u.Written()| <= bufSize ==> d == u.Written() && H.Ends(d))
  {
    var file, a, u, rest := File(us), H.Behind(AllWritten(us)[..k]), us[k], AllNals(us[k + 1..]);
    FileFrom(us, k);
    var d := H.Window(file, a, bufSize);
    assert d == file[a..][..|d|];
    StreamAppend(u.Nals(), rest);
    if k + 1 < |us| {
      assert us[k + 1..][0] == us[k + 1];
      ReadsInner(u, us[k + 1..], d);
    } else {
      LastEnds(u);
    }
  }

  lemma ReadsInner(u: Unit, more: seq<Unit>, d: seq<byte>)
    requires u.Valid() && AllUnitsValid(more) && more != [] && d <= Stream(u.Nals() + AllNals(more))
    ensures H.Cuts(d, |u.Written()|) <==> Clean(u, more[0].Nals()[0]) && |u.Written()| + 6 <= |d|
    ensures |u.Written()| + 6 <= |Stream(u.Nals() + AllNals(more))|
    ensures |u.Written()| <= |d| ==> d[..|u.Written()|] == u.Written()
  {
    var rest := AllNals(more);
    AllNalsKnown(more);
    Longer(more);
    StreamAppend(u.Nals(), rest);
    if |u.Written()| + 5 < |d| {
      CutsExactly(u, rest, d);
    }
  }

  lemma Longer(us: seq<Unit>)
    requires AllUnitsValid(us) && us != []
    ensures |Stream(AllNals(us))| >= 6
  {
    StreamAppend(us[0].Nals(), AllNals(us[1..]));
    Offsets(us[0], []);
  }

  lemma CutOnce(d: seq<byte>, e: nat, f: nat)
    requires H.Cuts(d, e) && H.Cuts(d, f)
    ensures e == f
  {
    var s, t :| H.CutAt(d, s, e) && H.CutAt(d, t, f);
  }

  lemma {:induction false} CutChunk(file: seq<byte>, bufSize: nat, chunks: seq<seq<byte>>, n: nat, k: nat)
    requires k < n <= |chunks| && H.AllCut(file, bufSize, chunks[..n])
    ensures H.NextCut(file, bufSize, chunks[..k], chunks[k])
    decreases n
  {
    assert chunks[..n][..n - 1] == chunks[..n - 1];
    if k < n - 1 {
      CutChunk(file, bufSize, chunks, n - 1, k);
    }
  }

  /** A chunk that is cut where a picture begins is that picture, and not the last. */
  lemma NextIsUnit(us: seq<Unit>, bufSize: nat, k: nat, chunk: seq<byte>)
    requires AllUnitsValid(us) && k < |us| && AllClean(us) && Room(us, bufSize)
    requires H.NextCut(File(us), bufSize, AllWritten(us)[..k], chunk)
    ensures k + 1 < |us| && chunk == us[k].Written()
  {
    var d := H.Window(File(us), H.Behind(AllWritten(us)[..k]), bufSize);
    ReadsUnit(us, k, bufSize);
    H.OneOutcome(d);
    CutOnce(d, |us[k].Written()|, |chunk|);
  }

  /** As far as there is room and nothing joins, the chunks are the pictures. */
  lemma {:induction false} ChunksAreUnits(us: seq<Unit>, bufSize: nat, chunks: seq<seq<byte>>)
    requires AllUnitsValid(us) && us != [] && AllClean(us) && Room(us, bufSize)
    requires H.AllCut(File(us), bufSize, chunks)
    ensures |chunks| < |us| && chunks == AllWritten(us)[..|chunks|]
  {
    if chunks != [] {
      var n := |chunks| - 1;
      ChunksAreUnits(us, bufSize, chunks[..n]);
      NextIsUnit(us, bufSize, n, chunks[n]);
      TakeNext(AllWritten(us), n);
      TakeNext(chunks, n);
    }
  }

  lemma PassGivesUnits(us: seq<Unit>, bufSize: nat, chunks: seq<seq<byte>>, ended: bool)
    requires AllUnitsValid(us) && |us| >= 2 && AllClean(us) && Room(us, bufSize)
    requires H.Pass(File(us), bufSize, chunks, ended)
    ensures ended && chunks == AllWritten(us)
  {
    if ended {
      var n := |chunks| - 1;
      TakeNext(chunks, n);
      CutAndLast(us, bufSize, chunks[..n], chunks[n]);
    } else {
      ChunksAreUnits(us, bufSize, chunks);
      EndsWithLast(us, bufSize, |chunks|);
    }
  }

  lemma CutAndLast(us: seq<Unit>, bufSize: nat, cut: seq<seq<byte>>, last: seq<byte>)
    requires AllUnitsValid(us) && us != [] && AllClean(us) && Room(us, bufSize)
    requires H.AllCut(File(us), bufSize, cut) && H.Behind(cut) <= |File(us)|
    requires last == H.Window(File(us), H.Behind(cut), bufSize) && H.Ends(last)
    ensures cut + [last] == AllWritten(us)
  {
    ChunksAreUnits(us, bufSize, cut);
    EndsWithLast(us, bufSize, |cut|);
    TakeNext(AllWritten(us), |cut|);
  }

  lemma EndsWithLast(us: seq<Unit>, bufSize: nat, k: nat)
    requires AllUnitsValid(us) && k < |us| && AllClean(us) && Room(us, bufSize)
    ensures H.Behind(AllWritten(us)[..k]) <= |File(us)|
    ensures var d := H.Window(File(us), H.Behind(AllWritten(us)[..k]), bufSize);
            && !H.NoSlice(d) && (H.Ends(d) ==> k + 1 == |us| && d == us[k].Written())
  {
    ReadsUnit(us, k, bufSize);
    H.OneOutcome(H.Window(File(us), H.Behind(AllWritten(us)[..k]), bufSize));
  }

  lemma UnitsNeedRoom(us: seq<Unit>, bufSize: nat)
    requires AllUnitsValid(us) && H.Pass(File(us), bufSize, AllWritten(us), true)
    ensures |us| >= 2 && AllClean(us) && Room(us, bufSize)
  {
    forall k | 0 <= k < |us| - 1
      ensures Clean(us[k], us[k + 1].Nals()[0]) && |us[k].Written()| + 6 <= bufSize
    {
      CutChunk(File(us), bufSize, AllWritten(us), |us| - 1, k);
      UnitNeedsRoom(us, bufSize, k);
    }
  }

  lemma UnitNeedsRoom(us: seq<Unit>, bufSize: nat, k: nat)
    requires AllUnitsValid(us) && k + 1 < |us|
    requires H.NextCut(File(us), bufSize, AllWritten(us)[..k], us[k].Written())
    ensures Clean(us[k], us[k + 1].Nals()[0]) && |us[k].Written()| + 6 <= bufSize
  {
    ReadsUnit(us, k, bufSize);
  }

  /**
   * Reading undoes writing: a pass gives exactly the pictures written if and only if there are at least two, the
   * buffer has room for each with the first bytes of the next, and none ends in a zero before a short start code.
   */
  method ReadBack(reader: H.H264File, ghost us: seq<Unit>, outSize: nat) returns (chunks: seq<seq<byte>>, ended: bool)
    requires reader.Valid() && reader.isOpen && reader.bytesUsed == 0 && outSize >= reader.bufSize
    requires AllUnitsValid(us) && reader.file == File(us)
    modifies reader, reader.buffer
    ensures ended && chunks == AllWritten(us)
            <==> |us| >= 2 && AllClean(us) && Room(us, reader.bufSize)
  {
    chunks, ended := reader.ReadPass(outSize);
    if |us| >= 2 && AllClean(us) && Room(us, reader.bufSize) {
      PassGivesUnits(us, reader.bufSize, chunks, ended);
    } else if ended && chunks == AllWritten(us) {
      UnitsNeedRoom(us, reader.bufSize);
    }
  }

  lemma OneNal(u: Unit)
    requires u.before == [] && u.more == []
    ensures u.Nals() == [u.first] && u.Written() == u.first.Written()
  {
    assert u.Nals() == [u.first];
    assert Stream([u.first][1..]) == [];
  }

  lemma TwoUnits(a: Unit, b: Unit)
    ensures File([a, b]) == a.Written() + b.Written()
  {
    FlattenAppend([a.Written()], [b.Written()]);
    FlattenOne(a.Written());
    FlattenOne(b.Written());
    assert AllWritten([a, b]) == [a.Written()] + [b.Written()];
  }

  const EndsInZero := Unit([], Nal(false, 0x65, [0x88, 0]), [])
  const AfterZero := Unit([], Nal(false, 0x41, [0x9A, 0x80]), [])

  /** Two pictures, the first ending in a zero: the read cuts before that zero. */
  lemma ZeroJoins()
    ensures AllUnitsValid([EndsInZero, AfterZero]) && !AllClean([EndsInZero, AfterZero])
    ensures H.Cuts(File([EndsInZero, AfterZero]), 5) && |EndsInZero.Written()| == 6
  {
    ZeroWritten();
    TwoUnits(EndsInZero, AfterZero);
    ZeroCut();
    assert Clean(EndsInZero, AfterZero.Nals()[0]) == false;
    assert !AllClean([EndsInZero, AfterZero]) by {
      assert [EndsInZero, AfterZero][0] == EndsInZero && [EndsInZero, AfterZero][0 + 1] == AfterZero;
    }
  }

  lemma ZeroWritten()
    ensures EndsInZero.Written() == [0, 0, 1, 0x65, 0x88, 0] && EndsInZero.Valid()
    ensures AfterZero.Written() == [0, 0, 1, 0x41, 0x9A, 0x80] && AfterZero.Valid()
    ensures AfterZero.Nals()[0] == AfterZero.first
    ensures EndsInZero.Written() + AfterZero.Written() == [0, 0, 1, 0x65, 0x88, 0, 0, 0, 1, 0x41, 0x9A, 0x80]
  {
    OneNal(EndsInZero);
    OneNal(AfterZero);
  }

  lemma ZeroCut()
    ensures H.Cuts([0, 0, 1, 0x65, 0x88, 0, 0, 0, 1, 0x41, 0x9A, 0x80], 5)
  {
    var d: seq<byte> := [0, 0, 1, 0x65, 0x88, 0, 0, 0, 1, 0x41, 0x9A, 0x80];
    assert H.CutAt(d, 0, 5);
  }

  /** A slice with one byte behind its header, at the end of the file, is not seen. */
  lemma ShortSliceUnseen(header: byte, b: byte)
    ensures H.NoSlice(Nal(false, header, [b]).Written())
  {
  }
}
