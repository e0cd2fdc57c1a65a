/** The commands in the log: their text, and what they do to the key-value store. */
module Commands {
  datatype Command =
    | Put(key: string, value: string)
    | Update(key: string, value: string)
    | Delete(key: string)
    | Nothing

  type Store = map<string, string>

  // ---- text ----

  predicate IsSpace(c: char) {
    c == ' ' || c == '\t' || c == '\n' || c == '\r' || c == 11 as char || c == 12 as char
  }

  predicate Clean(s: string) {
    s != [] && forall i :: 0 <= i < |s| ==> !IsSpace(s[i])
  }

  /** The text a leader writes into the log. */
  function Format(c: Command): string {
    match c
    case Put(k, v) => "put " + k + " " + v
    case Update(k, v) => "update " + k + " " + v
    case Delete(k) => "delete " + k
    case Nothing => ""
  }

  function SkipSpaces(s: string): string {
    if s != [] && IsSpace(s[0]) then SkipSpaces(s[1..]) else s
  }

  /** The characters up to the next space. */
  function Word(s: string): (w: string)
    ensures |w| <= |s| && w == s[..|w|] && (w == [] || Clean(w))
  {
    if s == [] || IsSpace(s[0]) then [] else [s[0]] + Word(s[1..])
  }

  /** What the stream operator >> reads from s; empty at the end of the stream. */
  function Read(s: string): (w: string)
    ensures w == [] || Clean(w)
  {
    Word(SkipSpaces(s))
  }

  function Rest(s: string): string {
    var t := SkipSpaces(s);
    t[|Word(t)|..]
  }

  /** The command in a log entry; what cannot be understood does nothing. */
  function Parse(s: string): Command {
    var op, rest := Read(s), Rest(s);
    var key, value := Read(rest), Read(Rest(rest));
    if op == "put" then if key != [] && value != [] then Put(key, value) else Nothing
    else if op == "update" then if key != [] && value != [] then Update(key, value) else Nothing
    else if op == "delete" then if key != [] then Delete(key) else Nothing
    else Nothing
  }

  lemma {:induction false} WordThenSpace(w: string, s: string)
    requires forall i :: 0 <= i < |w| ==> !IsSpace(w[i])
    requires s == [] || IsSpace(s[0])
    ensures Word(w + s) == w
  {
    if w == [] {
      assert w + s == s;
    } else {
      assert (w + s)[1..] == w[1..] + s;
      WordThenSpace(w[1..], s);
    }
  }

  /** Reading a word that one space precedes. */
  lemma ReadWord(w: string, s: string)
    requires Clean(w) && (s == [] || IsSpace(s[0]))
    ensures Read(w + s) == w && Rest(w + s) == s
    ensures Read(" " + (w + s)) == w && Rest(" " + (w + s)) == s
  {
    WordThenSpace(w, s);
    assert (w + s)[|w|..] == s;
    assert (" " + (w + s))[1..] == w + s;
    assert SkipSpaces(w + s) == w + s;
  }

  lemma ReadTwo(op: string, w: string, v: string)
    requires Clean(op) && Clean(w) && Clean(v)
    ensures var s := op + " " + w + " " + v;
            Read(s) == op && Read(Rest(s)) == w && Read(Rest(Rest(s))) == v
  {
    var s := op + " " + w + " " + v;
    assert s == op + (" " + (w + (" " + v)));
    ReadWord(op, " " + (w + (" " + v)));
    ReadWord(w, " " + v);
    assert v + "" == v;
    ReadWord(v, "");
  }

  lemma ReadOne(op: string, w: string)
    requires Clean(op) && Clean(w)
    ensures var s := op + " " + w; Read(s) == op && Read(Rest(s)) == w
  {
    var s := op + " " + w;
    assert s == op + (" " + w);
    ReadWord(op, " " + w);
    assert w + "" == w;
    ReadWord(w, "");
  }

  predicate Plain(c: Command) {
    match c
    case Put(k, v) => Clean(k) && Clean(v)
    case Update(k, v) => Clean(k) && Clean(v)
    case Delete(k) => Clean(k)
    case Nothing => true
  }

  lemma ParsedIsPlain(s: string)
    ensures Plain(Parse(s))
  {
    hide Read, Rest, Clean;
  }

  lemma PlainParsed(c: Command)
    requires Plain(c)
    ensures Parse(Format(c)) == c
  {
    hide Read, Rest;
    match c
    case Put(k, v) =>
      assert "put" + " " == "put ";
      ReadTwo("put", k, v);
    case Update(k, v) =>
      assert "update" + " " == "update ";
      assert "update"[0] != "put"[0];
      ReadTwo("update", k, v);
    case Delete(k) =>
      assert "delete" + " " == "delete ";
      assert "delete"[0] != "put"[0] && "delete"[0] != "update"[0];
      ReadOne("delete", k);
    case Nothing => ReadEmpty();
  }

  lemma ReadEmpty()
    ensures Read("") == ""
  {}

  /** A command survives its text exactly when its key and value are non-empty and without spaces. */
  lemma TextRoundTrip(c: Command)
    ensures Parse(Format(c)) == c <==> Plain(c)
  {
    ParsedIsPlain(Format(c));
    if Plain(c) {
      PlainParsed(c);
    }
    hide Parse, Format, Plain;
  }

  // ---- meaning ----

  /** put inserts only if the key is not there, update always sets. */
  function Apply(s: Store, c: Command): Store {
    match c
    case Put(k, v) => if k in s then s else s[k := v]
    case Update(k, v) => s[k := v]
    case Delete(k) => s - {k}
    case Nothing => s
  }

  function Run(cs: seq<Command>, s: Store): Store
    decreases |cs|
  {
    if cs == [] then s else Run(cs[1..], Apply(s, cs[0]))
  }

  lemma {:induction false} RunAppend(xs: seq<Command>, ys: seq<Command>, s: Store)
    ensures Run(xs + ys, s) == Run(ys, Run(xs, s))
    decreases |xs|
  {
    if xs == [] {
      assert xs + ys == ys;
    } else {
      assert (xs + ys)[1..] == xs[1..] + ys;
      RunAppend(xs[1..], ys, Apply(s, xs[0]));
    }
  }

  lemma RunSingle(c: Command, s: Store)
    ensures Run([c], s) == Apply(s, c)
  {
    assert [c][1..] == [];
  }

  // ---- what the commands mean for one key ----

  predicate About(c: Command, k: string) {
    !c.Nothing? && c.key == k
  }

  /** A key that no command is about keeps its value, or stays absent. */
  lemma {:induction false} UntouchedStays(cs: seq<Command>, s: Store, k: string)
    requires forall c :: c in cs ==> !About(c, k)
    ensures (k in Run(cs, s) <==> k in s) && (k in s ==> Run(cs, s)[k] == s[k])
    decreases |cs|
  {
    if cs != [] {
      assert !About(cs[0], k);
      UntouchedStays(cs[1..], Apply(s, cs[0]), k);
    }
  }

  /** The last command about a key, if it is an update, gives the key its value, whatever it was. */
  lemma LastUpdateWins(before: seq<Command>, k: string, v: string, after: seq<Command>, s: Store)
    requires forall c :: c in after ==> !About(c, k)
    ensures var end := Run(before + [Update(k, v)] + after, s); k in end && end[k] == v
  {
    RunAppend(before + [Update(k, v)], after, s);
    RunAppend(before, [Update(k, v)], s);
    RunSingle(Update(k, v), Run(before, s));
    UntouchedStays(after, Run(before + [Update(k, v)], s), k);
    hide Run;
  }

  /** If it is a delete, the key is gone. */
  lemma LastDeleteWins(before: seq<Command>, k: string, after: seq<Command>, s: Store)
    requires forall c :: c in after ==> !About(c, k)
    ensures k !in Run(before + [Delete(k)] + after, s)
  {
    RunAppend(before + [Delete(k)], after, s);
    RunAppend(before, [Delete(k)], s);
    RunSingle(Delete(k), Run(before, s));
    UntouchedStays(after, Run(before + [Delete(k)], s), k);
    hide Run;
  }

  /** While a key is there, puts of it change nothing. */
  lemma {:induction false} PutsKeep(cs: seq<Command>, s: Store, k: string)
    requires k in s && forall c :: c in cs && About(c, k) ==> c.Put?
    ensures k in Run(cs, s) && Run(cs, s)[k] == s[k]
    decreases |cs|
  {
    if cs != [] {
      assert About(cs[0], k) ==> cs[0].Put?;
      PutsKeep(cs[1..], Apply(s, cs[0]), k);
    }
  }

  /** The first put of a missing key gives it its value, and later puts do not change it. */
  lemma FirstPutWins(before: seq<Command>, k: string, v: string, after: seq<Command>, s: Store)
    requires k !in s && (forall c :: c in before ==> !About(c, k))
    requires forall c :: c in after && About(c, k) ==> c.Put?
    ensures var end := Run(before + [Put(k, v)] + after, s); k in end && end[k] == v
  {
    RunAppend(before + [Put(k, v)], after, s);
    RunAppend(before, [Put(k, v)], s);
    RunSingle(Put(k, v), Run(before, s));
    UntouchedStays(before, s, k);
    PutsKeep(after, Run(before + [Put(k, v)], s), k);
    hide Run;
  }

  // ---- running commands again ----

  /** What a sequence of commands does to one key: leave it, give it a value if it has none, or
      make it that value (or absent) whatever it was. */
  datatype Effect = Same | Fill(value: string) | Make(value: string) | Remove

  datatype Slot = Absent | Present(value: string)

  function Lookup(s: Store, k: string): Slot {
    if k in s then Present(s[k]) else Absent
  }

  function Affect(e: Effect, v: Slot): Slot {
    match e
    case Same => v
    case Fill(w) => if v.Present? then v else Present(w)
    case Make(w) => Present(w)
    case Remove => Absent
  }

  function EffectOf(c: Command, k: string): Effect {
    match c
    case Put(l, v) => if l == k then Fill(v) else Same
    case Update(l, v) => if l == k then Make(v) else Same
    case Delete(l) => if l == k then Remove else Same
    case Nothing => Same
  }

  /** e, then f. */
  function Then(e: Effect, f: Effect): Effect {
    match f
    case Same => e
    case Fill(w) => if e.Same? then f else if e.Remove? then Make(w) else e
    case Make(_) => f
    case Remove => f
  }

  function TotalEffect(cs: seq<Command>, k: string): Effect {
    if cs == [] then Same else Then(EffectOf(cs[0], k), TotalEffect(cs[1..], k))
  }

  lemma {:induction false} RunAffects(cs: seq<Command>, s: Store, k: string)
    ensures Lookup(Run(cs, s), k) == Affect(TotalEffect(cs, k), Lookup(s, k))
    decreases |cs|
  {
    if cs != [] {
      RunAffects(cs[1..], Apply(s, cs[0]), k);
    }
  }

  lemma SameStore(s: Store, t: Store)
    requires forall k :: Lookup(s, k) == Lookup(t, k)
    ensures s == t
  {
    assert forall k :: k in s ==> Lookup(s, k) == Lookup(t, k);
    assert forall k :: k in t ==> Lookup(s, k) == Lookup(t, k);
  }

  /** Running any sequence of commands twice is the same as running it once, on every store. */
  lemma RunTwice(cs: seq<Command>, s: Store)
    ensures Run(cs, Run(cs, s)) == Run(cs, s)
  {
    forall k ensures Lookup(Run(cs, Run(cs, s)), k) == Lookup(Run(cs, s), k) {
      RunAffects(cs, s, k);
      RunAffects(cs, Run(cs, s), k);
    }
    SameStore(Run(cs, Run(cs, s)), Run(cs, s));
  }

  /** Running b, then a and b: each key ends as b alone leaves it, or as a and b leave it. */
  lemma RunBetween(a: seq<Command>, b: seq<Command>, s: Store, k: string)
    ensures var again := Lookup(Run(a + b, Run(b, s)), k);
            again == Lookup(Run(b, s), k) || again == Lookup(Run(a + b, s), k)
  {
    RunAppend(a, b, s);
    RunAppend(a, b, Run(b, s));
    RunAffects(b, s, k);
    RunAffects(a, s, k);
    RunAffects(b, Run(a, s), k);
    RunAffects(a, Run(b, s), k);
    RunAffects(b, Run(a, Run(b, s)), k);
    hide Run, TotalEffect, Lookup;
  }

  /** If b then c, and a then b then c, both end in the same store, then running b first and then
      all three ends there too. */
  lemma RunAgain(a: seq<Command>, b: seq<Command>, c: seq<Command>, s: Store, end: Store)
    requires Run(c, Run(b, s)) == end && Run(c, Run(a + b, s)) == end
    ensures Run(c, Run(a + b, Run(b, s))) == end
  {
    var again := Run(a + b, Run(b, s));
    forall k ensures Lookup(Run(c, again), k) == Lookup(end, k) {
      RunBetween(a, b, s, k);
      RunAffects(c, again, k);
      RunAffects(c, Run(b, s), k);
      RunAffects(c, Run(a + b, s), k);
    }
    SameStore(Run(c, again), end);
  }

  // ---- reading through the store ----

  /** A read returns the value, but stores an empty one if the key is not there. */
  function Get(s: Store, k: string): Store {
    if k in s then s else s[k := ""]
  }

  /** A read leaves the store alone exactly when the key is there. */
  lemma GetKeepsIff(s: Store, k: string)
    ensures Get(s, k) == s <==> k in s
  {
    assert k in Get(s, k);
  }

  /** A put after a read does what it would have done without it exactly when the key is there, or
      the value put is the empty one that the read leaves behind; otherwise the put is lost. */
  lemma PutAfterGetIff(s: Store, k: string, v: string)
    ensures Apply(Get(s, k), Put(k, v)) == Apply(s, Put(k, v)) <==> k in s || v == ""
  {
    if k !in s {
      assert Apply(Get(s, k), Put(k, v))[k] == "";
      assert Apply(s, Put(k, v))[k] == v;
    }
  }
}
