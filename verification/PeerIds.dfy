/**
  Ids for the hosts in the picker (peers.go): a slug of the host's name, made unique with
  a numeric suffix; a host keeps the id it has whenever possible.
*/
module PeerIds {
  import opened Text

  const LOCAL_ID := "local"
  const MAX_SLUG := 48

  predicate Alnum(c: char) { 'a' <= c <= 'z' || Digit(c) }

  /** Lowercase letters and digits in runs separated by single dashes. */
  predicate Clean(s: string) {
    && s != "" && Alnum(s[0]) && Alnum(s[|s| - 1])
    && (forall i :: 0 <= i < |s| ==> Alnum(s[i]) || s[i] == '-')
    && (forall i :: 0 <= i < |s| - 1 ==> s[i] != '-' || s[i + 1] != '-')
  }

  // ------------------------------------------------------------------------ slugs

  /** The maximal runs of letters and digits in a (lowercased) name. */
  function Words(s: string): seq<string> {
    if s == "" then []
    else
      var ws, c := Words(s[..|s| - 1]), s[|s| - 1];
      if !Alnum(c) then ws
      else if |s| >= 2 && Alnum(s[|s| - 2]) && ws != [] then ws[..|ws| - 1] + [ws[|ws| - 1] + [c]]
      else ws + [[c]]
  }

  function Dashed(ws: seq<string>): string {
    if ws == [] then ""
    else if |ws| == 1 then ws[0]
    else Dashed(ws[..|ws| - 1]) + "-" + ws[|ws| - 1]
  }

  function TrimDash(s: string): string {
    if s != "" && s[|s| - 1] == '-' then s[..|s| - 1] else s
  }

  /** Specification of peerIDSlug: the words of the lowered name, dashed, cut to 48
      characters. */
  function Slug(name: string): string {
    var full := Dashed(Words(Lower(name)));
    var cut := if |full| > MAX_SLUG then TrimDash(full[..MAX_SLUG]) else full;
    if cut == "" then "host" else cut
  }

  predicate Word(w: string) { w != "" && forall i :: 0 <= i < |w| ==> Alnum(w[i]) }

  lemma {:induction false} WordsAreWords(s: string)
    ensures forall i :: 0 <= i < |Words(s)| ==> Word(Words(s)[i])
    ensures s != "" && Alnum(s[|s| - 1]) ==> Words(s) != []
  {
    if s != "" { WordsAreWords(s[..|s| - 1]); }
  }

  lemma {:induction false} DashedIsClean(ws: seq<string>)
    requires forall i :: 0 <= i < |ws| ==> Word(ws[i])
    ensures ws == [] || Clean(Dashed(ws))
  {
    if |ws| > 1 {
      DashedIsClean(ws[..|ws| - 1]);
      var a, w := Dashed(ws[..|ws| - 1]), ws[|ws| - 1];
      assert Dashed(ws) == a + "-" + w;
    }
  }

  lemma CutIsClean(s: string, n: nat)
    requires Clean(s) && 0 < n <= |s|
    ensures Clean(TrimDash(s[..n]))
  {
  }

  /** Every slug is clean and at most 48 characters long, whatever the name. */
  lemma SlugIsClean(name: string)
    ensures Clean(Slug(name)) && |Slug(name)| <= MAX_SLUG
  {
    var s := Lower(name);
    WordsAreWords(s);
    DashedIsClean(Words(s));
    var full := Dashed(Words(s));
    if |full| > MAX_SLUG { CutIsClean(full, MAX_SLUG); }
  }

  function Letters(s: string): string {
    if s == "" then ""
    else Letters(s[..|s| - 1]) + if Alnum(s[|s| - 1]) then [s[|s| - 1]] else ""
  }

  /** A slug drops no letter or digit: before the cut it spells exactly those of the name. */
  lemma {:induction false} SlugSpellsTheName(s: string)
    ensures Letters(Dashed(Words(s))) == Letters(s)
  {
    if s != "" {
      var t, c := s[..|s| - 1], s[|s| - 1];
      SlugSpellsTheName(t);
      WordsAreWords(t);
      if Alnum(c) {
        DashedStep(Words(t), Words(s), c, |s| >= 2 && Alnum(s[|s| - 2]) && Words(t) != []);
      }
    }
  }

  /** The letters and digits of a name, capitals made small by the table. */
  ghost function Spelled(name: string): string {
    if name == "" then ""
    else
      var c := name[|name| - 1];
      Spelled(name[..|name| - 1])
      + if Alnum(c) then [c] else if c in CAPITALS then [SMALLS[Place(CAPITALS, c)]] else ""
  }

  ghost function Place(table: string, c: char): (i: nat)
    requires c in table
    ensures i < |table| && table[i] == c
  {
    var i :| 0 <= i < |table| && table[i] == c;
    i
  }

  lemma SmallsAreLetters(c: char)
    ensures Alnum(c) ==> c !in CAPITALS && LowerChar(c) == c
    ensures c in CAPITALS ==> Alnum(LowerChar(c)) && LowerChar(c) == SMALLS[Place(CAPITALS, c)]
    ensures !Alnum(c) && c !in CAPITALS ==> !Alnum(LowerChar(c))
  {
    LowerByTable(c);
  }

  lemma CleanHasLetters(s: string)
    requires Clean(s)
    ensures Letters(s) != ""
  {
  }

  lemma {:induction false} LoweredSpells(name: string)
    ensures Letters(Lower(name)) == Spelled(name)
  {
    if name != "" {
      var (front, c) := (name[..|name| - 1], name[|name| - 1]);
      LoweredSpells(front);
      LowerByTable(c);
      assert Lower(name)[..|name| - 1] == Lower(front);
      SmallsAreLetters(c);
    }
  }

  /** A slug spells the letters and digits of the name, all of them unless the name is too
      long, and is "host" only where there are none. */
  lemma SlugSpells(name: string)
    ensures var full := Dashed(Words(Lower(name)));
      && (full == "" <==> Spelled(name) == "") && (full == "" ==> Slug(name) == "host")
      && (0 < |full| <= MAX_SLUG ==> Letters(Slug(name)) == Spelled(name))
      && (|full| > MAX_SLUG ==> |Slug(name)| >= MAX_SLUG - 1 && Letters(Slug(name)) <= Spelled(name))
  {
    hide Words, Dashed, Letters, Clean, Spelled, Lower;
    var full := Dashed(Words(Lower(name)));
    FullSpells(name);
    if |full| > MAX_SLUG {
      var n := |TrimDash(full[..MAX_SLUG])|;
      assert full[..MAX_SLUG][..n] == full[..n];
      LettersOfPrefix(full, n);
    }
  }

  lemma FullSpells(name: string)
    ensures var full := Dashed(Words(Lower(name)));
      Letters(full) == Spelled(name) && (full == "" <==> Spelled(name) == "")
  {
    hide Words, Dashed, Clean, Spelled, Lower;
    var full := Dashed(Words(Lower(name)));
    SlugSpellsTheName(Lower(name));
    LoweredSpells(name);
    WholeName(Lower(name));
    if full != "" {
      WordsAreWords(Lower(name));
      DashedIsClean(Words(Lower(name)));
      CleanHasLetters(full);
    }
  }

  lemma {:induction false} LettersOfPrefix(s: string, n: nat)
    requires n <= |s|
    ensures Letters(s[..n]) <= Letters(s)
  {
    if n < |s| {
      LettersOfPrefix(s[..|s| - 1], n);
      assert s[..|s| - 1][..n] == s[..n];
    } else {
      assert s[..n] == s;
    }
  }

  lemma DashedStep(before: seq<string>, after: seq<string>, c: char, grows: bool)
    requires Alnum(c) && (grows ==> before != [])
    requires after == if grows then before[..|before| - 1] + [before[|before| - 1] + [c]] else before + [[c]]
    ensures Letters(Dashed(after)) == Letters(Dashed(before)) + [c]
    ensures grows ==> Dashed(after) == Dashed(before) + [c]
    ensures !grows ==> Dashed(after) == (if before == [] then [c] else Dashed(before) + "-" + [c])
  {
    hide Letters, Dashed;
    if grows { LastWordGrows(before, c); } else { NewWord(before, c); }
    OneLetterMore(Dashed(before), c);
  }

  lemma LastWordGrows(ws: seq<string>, c: char)
    requires ws != []
    ensures Dashed(ws[..|ws| - 1] + [ws[|ws| - 1] + [c]]) == Dashed(ws) + [c]
  {
    var (front, w) := (ws[..|ws| - 1], ws[|ws| - 1]);
    assert (front + [w + [c]])[..|front|] == front;
  }

  lemma NewWord(ws: seq<string>, c: char)
    ensures Dashed(ws + [[c]]) == (if ws == [] then [c] else Dashed(ws) + "-" + [c])
    ensures ws == [] ==> Dashed(ws) == ""
  {
    assert (ws + [[c]])[..|ws|] == ws;
  }

  lemma OneLetterMore(s: string, c: char)
    requires Alnum(c)
    ensures Letters(s + [c]) == Letters(s + "-" + [c]) == Letters(s) + [c]
    ensures s == "" ==> Letters([c]) == [c] && Letters(s) == ""
  {
    assert (s + [c])[..|s|] == s && (s + "-" + [c])[..|s| + 1] == s + "-" && (s + "-")[..|s|] == s;
    assert s == "" ==> s + [c] == [c];
  }

  /** One more character of the name: what it does to the dashed words so far. */
  lemma NextCharacter(s: string, i: nat)
    requires i < |s|
    ensures var before, after := Words(s[..i]), Words(s[..i + 1]);
      if !Alnum(s[i]) then after == before
      else
        && after != []
        && Dashed(after) == Dashed(before)
             + (if before == [] || (i > 0 && Alnum(s[i - 1])) then "" else "-") + [s[i]]
    ensures Words(s[..i]) == [] <==> Dashed(Words(s[..i])) == ""
    ensures i > 0 && Alnum(s[i - 1]) ==> Words(s[..i]) != []
  {
    assert s[..i + 1][..i] == s[..i];
    WordsAreWords(s[..i]);
    DashedIsClean(Words(s[..i]));
    if Alnum(s[i]) {
      DashedStep(Words(s[..i]), Words(s[..i + 1]), s[i], i >= 1 && Alnum(s[i - 1]) && Words(s[..i]) != []);
    }
  }

  lemma WholeName(s: string)
    ensures Words(s) == [] <==> Dashed(Words(s)) == ""
    ensures Dashed(Words(s)) != "" ==> Dashed(Words(s))[|Dashed(Words(s))| - 1] != '-'
  {
    WordsAreWords(s);
    DashedIsClean(Words(s));
  }

  /** peerIDSlug: one pass over the lowered name, writing into a buffer. */
  method PeerIDSlug(name: string) returns (slug: string)
    ensures slug == Slug(name)
  {
    hide Words, Dashed, Lower;
    var lowered := Lower(name);
    assert Words(lowered[..0]) == [] && Dashed(Words(lowered[..0])) == "" by { EmptyName(lowered); }
    var b, dash := "", false;
    var i := 0;
    while i < |lowered|
      invariant i <= |lowered|
      invariant dash <==> Words(lowered[..i]) != [] && !Alnum(lowered[i - 1])
      invariant b == Dashed(Words(lowered[..i])) + (if dash then "-" else "")
      invariant Words(lowered[..i]) != [] ==> i > 0
    {
      var r := lowered[i];
      NextCharacter(lowered, i);
      if Alnum(r) {
        b := b + [r];
        dash := false;
      } else if !dash && b != "" {
        b := b + "-";
        dash := true;
      }
      i := i + 1;
    }
    assert lowered[..|lowered|] == lowered;
    WholeName(lowered);
    slug := TrimDash(b);
    assert slug == Dashed(Words(lowered));
    if |slug| > MAX_SLUG { slug := TrimDash(slug[..MAX_SLUG]); }
    if slug == "" { slug := "host"; }
  }

  lemma EmptyName(s: string)
    ensures Words(s[..0]) == [] && Dashed(Words(s[..0])) == ""
  {
  }

  // --------------------------------------------------------------- unique ids

  function Numbered(base: string, n: nat): string { if n <= 1 then base else base + "-" + Itoa(n) }

  /** base, base-2, base-3, and so on. */
  lemma NumberedForms(base: string)
    ensures Numbered(base, 1) == base && Numbered(base, 2) == base + "-2" && Numbered(base, 10) == base + "-10"
  {
    assert Itoa(10) == Itoa(1) + [DigitOf(0)];
  }

  lemma NumberedInjective(base: string, m: nat, n: nat)
    requires 1 <= m && 1 <= n && Numbered(base, m) == Numbered(base, n)
    ensures m == n
  {
    if m > 1 && n > 1 {
      assert Numbered(base, m)[|base| + 1..] == Itoa(m);
      assert Numbered(base, n)[|base| + 1..] == Itoa(n);
    }
  }

  lemma NumberedIsClean(base: string, n: nat)
    requires Clean(base)
    ensures Clean(Numbered(base, n)) && Numbered(base, n) != ""
  {
  }

  /** The names tried before the n-th. */
  ghost function Tried(base: string, n: nat): set<string> { set m | 1 <= m < n :: Numbered(base, m) }

  lemma OneMoreTried(base: string, n: nat)
    requires n >= 1
    ensures Tried(base, n + 1) == Tried(base, n) + {Numbered(base, n)} && Numbered(base, n) !in Tried(base, n)
  {
    forall m | 1 <= m < n ensures Numbered(base, m) != Numbered(base, n) {
      if Numbered(base, m) == Numbered(base, n) { NumberedInjective(base, m, n); }
    }
  }

  lemma AllTriedTaken(base: string, n: nat, used: set<string>)
    requires Tried(base, n) <= used
    ensures forall m :: 1 <= m < n ==> Numbered(base, m) in used
  {
    assert forall m :: 1 <= m < n ==> Numbered(base, m) in Tried(base, n);
  }

  /** The first of base, base-2, base-3, ... that is not taken.  The search ends because
      the names it has tried are different members of a finite set. */
  method FreeId(base: string, used: set<string>) returns (id: string, ghost n: nat)
    ensures n >= 1 && id == Numbered(base, n) && id !in used
    ensures forall m :: 1 <= m < n ==> Numbered(base, m) in used
  {
    hide Tried;
    id, n := base, 1;
    var next := 2;
    assert Tried(base, 1) == {} by { NoneTried(base); }
    while id in used
      invariant n >= 1 && next == n + 1 && id == Numbered(base, n)
      invariant Tried(base, n) <= used
      decreases |used - Tried(base, n)|
    {
      OneMoreTried(base, n);
      assert used - Tried(base, n + 1) == (used - Tried(base, n)) - {id};
      id := base + "-" + Itoa(next);
      n := next;
      next := next + 1;
    }
    AllTriedTaken(base, n, used);
  }

  lemma NoneTried(base: string)
    ensures Tried(base, 1) == {}
  {
  }

  /** What names a host across scans: its place in -peers, or its tailnet machine name. */
  datatype Key = Cfg(index: nat) | Ts(machine: string)

  /** One row of the host list; `key` is stable across scans, the rest may change. */
  class PeerRecord {
    const key: Key
    var id: string
    var name: string
    var online: bool
    var base: string
    var hostname: string
    var lastSeen: int

    constructor (key: Key, base: string)
      ensures this.key == key && this.base == base && id == "" && !online && hostname == "" && lastSeen == 0
    {
      this.key, this.base := key, base;
      id, name, online, hostname, lastSeen := "", "", false, "", 0;
    }
  }

  predicate Distinct<T(==)>(s: seq<T>) { forall i, j :: 0 <= i < j < |s| ==> s[i] != s[j] }

  ghost function Ids(rs: seq<PeerRecord>): (r: seq<string>)
    reads rs`id
    ensures |r| == |rs| && forall i :: 0 <= i < |rs| ==> r[i] == rs[i].id
    decreases |rs|
  {
    if rs == [] then []
    else
      assert rs[|rs| - 1] in rs && forall r :: r in rs[..|rs| - 1] ==> r in rs;
      Ids(rs[..|rs| - 1]) + [rs[|rs| - 1].id]
  }

  ghost function Names(rs: seq<PeerRecord>): (r: seq<string>)
    reads rs`name
    ensures |r| == |rs| && forall i :: 0 <= i < |rs| ==> r[i] == rs[i].name
    decreases |rs|
  {
    if rs == [] then []
    else
      assert rs[|rs| - 1] in rs && forall r :: r in rs[..|rs| - 1] ==> r in rs;
      Names(rs[..|rs| - 1]) + [rs[|rs| - 1].name]
  }

  /** A record can be in the list more than once. */
  predicate Sees(rs: seq<PeerRecord>, from: nat, to: nat, r: PeerRecord)
    requires from <= to <= |rs|
  {
    exists j :: from <= j < to && rs[j] == r
  }

  predicate Once(rs: seq<PeerRecord>, i: nat)
    requires i < |rs|
  {
    !Sees(rs, 0, i, rs[i]) && !Sees(rs, i + 1, |rs|, rs[i])
  }

  /** Ids of records: the same record has the same id wherever it stands. */
  ghost predicate Aliased(rs: seq<PeerRecord>, ids: seq<string>) {
    |ids| == |rs| && forall i, j :: 0 <= i < |rs| && 0 <= j < |rs| && rs[i] == rs[j] ==> ids[i] == ids[j]
  }

  /** This id is present, not the reserved one, and not an earlier record's. */
  predicate Keeps(ids: seq<string>, i: nat)
    requires i < |ids|
  {
    ids[i] != "" && ids[i] != LOCAL_ID && forall j :: 0 <= j < i ==> ids[j] != ids[i]
  }

  /** A record keeps such an id, unless the list holds the record twice: at the second sight
      its own id counts as taken. */
  predicate Sole(rs: seq<PeerRecord>, ids: seq<string>, i: nat)
    requires i < |ids| == |rs|
  {
    Keeps(ids, i) && Once(rs, i)
  }

  function Kept(rs: seq<PeerRecord>, ids: seq<string>): (r: seq<string>)
    requires |ids| == |rs|
    ensures |r| == |ids| && forall i :: 0 <= i < |ids| ==> r[i] == if Sole(rs, ids, i) then ids[i] else ""
  {
    seq(|ids|, i requires 0 <= i < |ids| => if Sole(rs, ids, i) then ids[i] else "")
  }

  function Taken(ids: seq<string>): set<string> { {LOCAL_ID} + set id | id in ids && id != "" }

  /** `id` is the first numbered form of the slug of `name` that is not in `taken`. */
  ghost predicate FirstFree(id: string, name: string, taken: set<string>) {
    exists n: nat :: n >= 1 && id == Numbered(Slug(name), n) && id !in taken
      && forall m :: 1 <= m < n ==> Numbered(Slug(name), m) in taken
  }

  /** What `assignPeerIDs` makes of the ids it finds, once it has seen k places: kept ids
      stay, and every other record, where it stands first, becomes the first form of its
      slug that no record had on entry and no record before it has. */
  ghost predicate Assigned(rs: seq<PeerRecord>, was: seq<string>, names: seq<string>, now: seq<string>, k: nat)
    requires |names| == |was| == |rs| && k <= |was|
  {
    && Aliased(rs, now)
    && (forall i :: 0 <= i < |was| && Sole(rs, was, i) ==> now[i] == was[i])
    && (forall i :: 0 <= i < |was| && !Sole(rs, was, i) && !Sees(rs, 0, k, rs[i]) ==> now[i] == "")
    && (forall i :: 0 <= i < k && !Sole(rs, was, i) && !Sees(rs, 0, i, rs[i]) ==>
          FirstFree(now[i], names[i], Taken(was + now[..i])))
  }

  /** The ids when the first pass has seen k places. */
  ghost predicate Half(rs: seq<PeerRecord>, was: seq<string>, cur: seq<string>, k: nat)
    requires |was| == |rs| && k <= |was|
  {
    && Aliased(rs, cur)
    && (forall i :: 0 <= i < |rs| && !Sees(rs, 0, k, rs[i]) ==> cur[i] == was[i])
    && (forall p :: 0 <= p < k && !Sees(rs, 0, p, rs[p]) ==>
          cur[p] == if Keeps(was, p) && !Sees(rs, p + 1, k, rs[p]) then was[p] else "")
  }

  /** A record's new id shows wherever the record stands. */
  function Put(rs: seq<PeerRecord>, ids: seq<string>, k: nat, id: string): (r: seq<string>)
    requires k < |rs| == |ids|
    ensures |r| == |ids| && forall i :: 0 <= i < |ids| ==> r[i] == if rs[i] == rs[k] then id else ids[i]
  {
    seq(|ids|, i requires 0 <= i < |ids| => if rs[i] == rs[k] then id else ids[i])
  }

  lemma SeesNext(rs: seq<PeerRecord>, from: nat, k: nat, r: PeerRecord)
    requires from <= k < |rs|
    ensures Sees(rs, from, k + 1, r) <==> Sees(rs, from, k, r) || rs[k] == r
  {
    if Sees(rs, from, k, r) {
      var j :| from <= j < k && rs[j] == r;
      assert rs[j] == r;
    }
  }

  lemma SeesAt(rs: seq<PeerRecord>, k: nat)
    requires k < |rs|
    ensures !Sees(rs, k + 1, k + 1, rs[k]) && forall p :: 0 <= p < k && rs[p] == rs[k] ==> Sees(rs, 0, k, rs[k])
  {
  }

  lemma {:induction false} FirstPlace(rs: seq<PeerRecord>, k: nat, r: PeerRecord) returns (p: nat)
    requires k <= |rs| && Sees(rs, 0, k, r)
    ensures p < k && rs[p] == r && !Sees(rs, 0, p, r)
  {
    SeesNext(rs, 0, k - 1, r);
    if Sees(rs, 0, k - 1, r) { p := FirstPlace(rs, k - 1, r); } else { p := k - 1; }
  }

  lemma TakenNext(was: seq<string>, k: nat)
    requires k < |was|
    ensures Keeps(was, k) <==> was[k] != "" && was[k] !in Taken(was[..k])
    ensures Taken(was[..k + 1]) == Taken(was[..k]) + (if was[k] != "" then {was[k]} else {})
  {
    assert was[..k + 1] == was[..k] + [was[k]];
  }

  /** The first pass at one place. */
  lemma HalfNext(rs: seq<PeerRecord>, was: seq<string>, cur: seq<string>, k: nat, used: set<string>)
    requires Aliased(rs, was) && k < |rs| && Half(rs, was, cur, k) && used == Taken(was[..k])
    ensures var keeps := cur[k] != "" && cur[k] !in used;
      && Half(rs, was, Put(rs, cur, k, if keeps then cur[k] else ""), k + 1)
      && Taken(was[..k + 1]) == used + (if keeps then {cur[k]} else {})
  {
    hide Taken, Keeps;
    TakenNext(was, k);
    var keeps := cur[k] != "" && cur[k] !in used;
    if Sees(rs, 0, k, rs[k]) {
      var p := FirstPlace(rs, k, rs[k]);
      assert cur[k] == cur[p] && was[k] == was[p];
      SeenIsTaken(was, p, k);
    }
    HalfShape(rs, was, cur, k, keeps);
  }

  lemma SeenIsTaken(was: seq<string>, p: nat, k: nat)
    requires p < k <= |was|
    ensures was[p] == "" || was[p] in Taken(was[..k])
  {
    assert was[..k][p] == was[p];
  }

  lemma HalfShape(rs: seq<PeerRecord>, was: seq<string>, cur: seq<string>, k: nat, keeps: bool)
    requires Aliased(rs, was) && k < |rs| && Half(rs, was, cur, k)
    requires if Sees(rs, 0, k, rs[k]) then !keeps else keeps == Keeps(was, k)
    ensures Half(rs, was, Put(rs, cur, k, if keeps then cur[k] else ""), k + 1)
  {
    hide Keeps, Sees;
    var next := Put(rs, cur, k, if keeps then cur[k] else "");
    SeesAt(rs, k);
    forall i | 0 <= i < |rs| && !Sees(rs, 0, k + 1, rs[i]) ensures next[i] == was[i] { SeesNext(rs, 0, k, rs[i]); }
    forall p | 0 <= p < k + 1 && !Sees(rs, 0, p, rs[p])
      ensures next[p] == if Keeps(was, p) && !Sees(rs, p + 1, k + 1, rs[p]) then was[p] else ""
    {
      if p < k {
        SeesNext(rs, p + 1, k, rs[p]);
      }
    }
  }

  lemma HalfStarts(rs: seq<PeerRecord>, was: seq<string>)
    requires Aliased(rs, was)
    ensures Half(rs, was, was, 0) && Taken(was[..0]) == {LOCAL_ID}
  {
  }

  lemma HalfEnds(rs: seq<PeerRecord>, was: seq<string>, cur: seq<string>)
    requires Aliased(rs, was) && Half(rs, was, cur, |rs|)
    ensures cur == Kept(rs, was)
  {
    hide Keeps;
    forall i | 0 <= i < |rs| ensures cur[i] == if Sole(rs, was, i) then was[i] else "" {
      assert Sees(rs, 0, |rs|, rs[i]);
      if Sees(rs, 0, i, rs[i]) {
        var p := FirstPlace(rs, i, rs[i]);
        assert cur[i] == cur[p] && Sees(rs, p + 1, |rs|, rs[p]);
      }
    }
  }

  method SetId(records: seq<PeerRecord>, k: nat, id: string)
    requires k < |records|
    modifies records`id
    ensures records[k].id == id
    ensures Names(records) == old(Names(records)) && Ids(records) == Put(records, old(Ids(records)), k, id)
  {
    records[k].id := id;
  }

  /** First pass: clear every id that is missing, reserved or a repeat. */
  method KeepIds(records: seq<PeerRecord>) returns (used: set<string>)
    modifies records`id
    ensures Names(records) == old(Names(records)) && Ids(records) == Kept(records, old(Ids(records)))
    ensures used == Taken(old(Ids(records)))
  {
    hide Half, Sole, Keeps, Taken, Ids, Names;
    ghost var was := Ids(records);
    HalfStarts(records, was);
    used := {LOCAL_ID};
    var k := 0;
    while k < |records|
      invariant k <= |records| && Names(records) == old(Names(records))
      invariant Half(records, was, Ids(records), k)
      invariant used == Taken(was[..k])
    {
      assert records[k] in records;
      ghost var cur := Ids(records);
      HalfNext(records, was, cur, k, used);
      var id := records[k].id;
      if id != "" && id !in used {
        used := used + {id};
      } else {
        SetId(records, k, "");
      }
      assert Ids(records) == Put(records, cur, k, records[k].id);
      k := k + 1;
    }
    assert was[..|was|] == was;
    HalfEnds(records, was, Ids(records));
  }

  lemma AfterFirstPass(rs: seq<PeerRecord>, was: seq<string>, names: seq<string>)
    requires Aliased(rs, was) && |names| == |was|
    ensures Assigned(rs, was, names, Kept(rs, was), 0) && Taken(was + Kept(rs, was)[..0]) == Taken(was)
  {
    assert was + Kept(rs, was)[..0] == was;
    forall i, j | 0 <= i < |rs| && 0 <= j < |rs| && rs[i] == rs[j] ensures Kept(rs, was)[i] == Kept(rs, was)[j] {
      if i != j {
        assert !Once(rs, i) by { assert i < j ==> Sees(rs, i + 1, |rs|, rs[i]); assert j < i ==> Sees(rs, 0, i, rs[i]); }
        assert !Once(rs, j) by { assert j < i ==> Sees(rs, j + 1, |rs|, rs[j]); assert i < j ==> Sees(rs, 0, j, rs[j]); }
      }
    }
  }

  lemma FreeIsFirst(id: string, n: nat, name: string, taken: set<string>)
    requires n >= 1 && id == Numbered(Slug(name), n) && id !in taken
    requires forall m :: 1 <= m < n ==> Numbered(Slug(name), m) in taken
    ensures FirstFree(id, name, taken) && id != ""
  {
    SlugIsClean(name);
  }

  lemma TakenMore(was: seq<string>, now: seq<string>, k: nat)
    requires k < |now|
    ensures Taken(was + now[..k + 1]) == Taken(was + now[..k]) + (if now[k] != "" then {now[k]} else {})
  {
    assert was + now[..k + 1] == (was + now[..k]) + [now[k]];
  }

  /** A record that already has its id when its place is reached. */
  lemma SkipAssigned(rs: seq<PeerRecord>, was: seq<string>, names: seq<string>, now: seq<string>, k: nat)
    requires |names| == |was| == |rs| && k < |was| && Assigned(rs, was, names, now, k) && now[k] != ""
    ensures Assigned(rs, was, names, now, k + 1)
    ensures Taken(was + now[..k + 1]) == Taken(was + now[..k])
  {
    hide FirstFree, Keeps, Sees, Sole, Taken;
    TakenMore(was, now, k);
    AlreadyTaken(rs, was, names, now, k);
    forall i | 0 <= i < |was| && !Sees(rs, 0, k + 1, rs[i]) ensures !Sees(rs, 0, k, rs[i]) { SeesNext(rs, 0, k, rs[i]); }
  }

  lemma AlreadyTaken(rs: seq<PeerRecord>, was: seq<string>, names: seq<string>, now: seq<string>, k: nat)
    requires |names| == |was| == |rs| && k < |was| && Assigned(rs, was, names, now, k) && now[k] != ""
    ensures now[k] in Taken(was + now[..k])
    ensures Sees(rs, 0, k, rs[k]) || Sole(rs, was, k)
  {
    hide FirstFree, Keeps;
    if Sole(rs, was, k) {
      assert (was + now[..k])[k] == now[k];
    } else {
      var p := FirstPlace(rs, k, rs[k]);
      assert (was + now[..k])[|was| + p] == now[k];
    }
  }

  /** A record that gets its id. */
  lemma NextAssigned(rs: seq<PeerRecord>, was: seq<string>, names: seq<string>, now: seq<string>, k: nat, id: string)
    requires |names| == |was| == |rs| && k < |was| && Assigned(rs, was, names, now, k) && now[k] == ""
    requires id != "" && FirstFree(id, names[k], Taken(was + now[..k]))
    ensures Assigned(rs, was, names, Put(rs, now, k, id), k + 1)
    ensures Taken(was + Put(rs, now, k, id)[..k + 1]) == Taken(was + now[..k]) + {id}
  {
    hide FirstFree, Sees, Sole, Keeps, Taken;
    var next := Put(rs, now, k, id);
    NotYetSeen(rs, was, names, now, k);
    TakenMore(was, next, k);
    forall i | 0 <= i <= k ensures next[..i] == now[..i] { PutLater(rs, now, k, id, i); }
    forall i | 0 <= i < |was| && !Sees(rs, 0, k + 1, rs[i]) ensures !Sees(rs, 0, k, rs[i]) && rs[i] != rs[k] {
      SeesNext(rs, 0, k, rs[i]);
    }
    forall i | 0 <= i < |was| && Sole(rs, was, i) ensures rs[i] != rs[k] { SoleHasId(rs, was, names, now, k, i); }
  }

  lemma PutLater(rs: seq<PeerRecord>, now: seq<string>, k: nat, id: string, i: nat)
    requires k < |rs| == |now| && i <= k && !Sees(rs, 0, k, rs[k])
    ensures Put(rs, now, k, id)[..i] == now[..i]
  {
    assert forall j :: 0 <= j < i ==> rs[j] != rs[k];
  }

  lemma SoleHasId(rs: seq<PeerRecord>, was: seq<string>, names: seq<string>, now: seq<string>, k: nat, i: nat)
    requires |names| == |was| == |rs| && k < |was| && Assigned(rs, was, names, now, k) && now[k] == ""
    requires i < |was| && Sole(rs, was, i)
    ensures rs[i] != rs[k]
  {
  }

  lemma NotYetSeen(rs: seq<PeerRecord>, was: seq<string>, names: seq<string>, now: seq<string>, k: nat)
    requires |names| == |was| == |rs| && k < |was| && Assigned(rs, was, names, now, k) && now[k] == ""
    ensures !Sees(rs, 0, k, rs[k]) && !Sole(rs, was, k)
  {
    if Sees(rs, 0, k, rs[k]) {
      var p := FirstPlace(rs, k, rs[k]);
      assert now[p] == "";
      if !Sole(rs, was, p) {
        var n: nat :| n >= 1 && now[p] == Numbered(Slug(names[p]), n);
        SlugIsClean(names[p]);
        NumberedIsClean(Slug(names[p]), n);
      }
    }
  }

  /** The second pass before its k-th place. */
  ghost predicate Reached(rs: seq<PeerRecord>, was: seq<string>, names: seq<string>, now: seq<string>, k: nat, used: set<string>) {
    && |names| == |was| == |rs| && k <= |was| && Assigned(rs, was, names, now, k) && |now| == |rs|
    && used == Taken(was + now[..k])
  }

  lemma ReachedFirst(rs: seq<PeerRecord>, was: seq<string>, names: seq<string>)
    requires Aliased(rs, was) && |names| == |was|
    ensures Reached(rs, was, names, Kept(rs, was), 0, Taken(was))
  {
    hide Assigned, Taken;
    AfterFirstPass(rs, was, names);
  }

  lemma ReachedNext(rs: seq<PeerRecord>, was: seq<string>, names: seq<string>, now: seq<string>, k: nat, used: set<string>, id: string)
    requires Reached(rs, was, names, now, k, used) && k < |rs|
    requires if now[k] == "" then id != "" && FirstFree(id, names[k], used) else id == now[k]
    ensures now[k] == "" ==> Reached(rs, was, names, Put(rs, now, k, id), k + 1, used + {id})
    ensures now[k] != "" ==> Reached(rs, was, names, now, k + 1, used)
  {
    hide Assigned, Taken, FirstFree;
    if now[k] == "" { NextAssigned(rs, was, names, now, k, id); } else { SkipAssigned(rs, was, names, now, k); }
  }

  lemma ReachedEnd(rs: seq<PeerRecord>, was: seq<string>, names: seq<string>, now: seq<string>, used: set<string>)
    requires Reached(rs, was, names, now, |rs|, used)
    ensures |names| == |was| == |rs| && Assigned(rs, was, names, now, |was|)
  {
  }

  /** The second pass at one place. */
  method GiveId(records: seq<PeerRecord>, k: nat, used: set<string>, ghost was: seq<string>, ghost names: seq<string>)
    returns (after: set<string>)
    requires k < |records| && Names(records) == names && Reached(records, was, names, Ids(records), k, used)
    modifies records`id
    ensures Names(records) == names && Reached(records, was, names, Ids(records), k + 1, after)
  {
    hide Taken, Assigned, FirstFree, Numbered, Slug, Ids, Names, Put;
    ghost var now := Ids(records);
    assert records[k] in records && |names| == |records| by { assert |Names(records)| == |records|; }
    if records[k].id != "" {
      ReachedNext(records, was, names, now, k, used, now[k]);
      return used;
    }
    var base := PeerIDSlug(records[k].name);
    var id, n := FreeId(base, used);
    FreeIsFirst(id, n, names[k], used);
    hide Reached;
    ReachedNext(records, was, names, now, k, used, id);
    after := used + {id};
    SetId(records, k, id);
  }

  method AssignPeerIDs(records: seq<PeerRecord>)
    modifies records`id
    ensures Names(records) == old(Names(records))
    ensures Assigned(records, old(Ids(records)), Names(records), Ids(records), |records|)
  {
    hide Taken, Assigned, Ids, Names, Reached, Kept;
    ghost var was, names := Ids(records), Names(records);
    var used := KeepIds(records);
    ReachedFirst(records, was, names);
    GiveIds(records, used, was, names);
  }

  /** The second pass. */
  method GiveIds(records: seq<PeerRecord>, first: set<string>, ghost was: seq<string>, ghost names: seq<string>)
    requires Names(records) == names && Reached(records, was, names, Ids(records), 0, first)
    modifies records`id
    ensures |names| == |was| == |records|
    ensures Names(records) == names && Assigned(records, was, names, Ids(records), |was|)
  {
    hide Taken, Assigned, Ids, Names, Reached, Kept;
    var used := first;
    var k := 0;
    while k < |records|
      invariant k <= |records| && Names(records) == names
      invariant Reached(records, was, names, Ids(records), k, used)
    {
      used := GiveId(records, k, used, was, names);
      k := k + 1;
    }
    ReachedEnd(records, was, names, Ids(records), used);
  }

  // ------------------------------------------------------- what the ids come to

  lemma AssignedOne(rs: seq<PeerRecord>, was: seq<string>, names: seq<string>, now: seq<string>, i: nat)
    requires |names| == |was| == |rs| && Assigned(rs, was, names, now, |was|) && i < |was|
    ensures now[i] != "" && now[i] != LOCAL_ID && (Sole(rs, was, i) || (Clean(now[i]) && now[i] !in Taken(was)))
    ensures Sole(rs, was, i) ==> now[i] == was[i]
    ensures !Sole(rs, was, i) && !Sees(rs, 0, i, rs[i]) ==> now[i] !in Taken(was + now[..i])
  {
    if !Sole(rs, was, i) {
      assert Sees(rs, 0, i + 1, rs[i]);
      var p := FirstPlace(rs, i + 1, rs[i]);
      assert !Sole(rs, was, p) by {
        if p < i { assert Sees(rs, p + 1, |rs|, rs[p]); }
      }
      var n: nat :| n >= 1 && now[p] == Numbered(Slug(names[p]), n) && now[p] !in Taken(was + now[..p]);
      SlugIsClean(names[p]);
      NumberedIsClean(Slug(names[p]), n);
      TakenGrows(was, now[..p]);
    }
  }

  lemma TakenGrows(was: seq<string>, more: seq<string>)
    ensures Taken(was) <= Taken(was + more)
  {
    forall id | id in was ensures id in was + more {
      var i :| 0 <= i < |was| && was[i] == id;
      assert (was + more)[i] == id;
    }
  }

  lemma SameLength(rs: seq<PeerRecord>, was: seq<string>, names: seq<string>, now: seq<string>)
    requires |names| == |was| == |rs| && Assigned(rs, was, names, now, |was|)
    ensures |now| == |was|
  {
  }

  lemma AssignedInOrder(rs: seq<PeerRecord>, was: seq<string>, names: seq<string>, now: seq<string>, p: nat, q: nat)
    requires |names| == |was| == |rs| && Assigned(rs, was, names, now, |was|)
    requires p < q < |was| && !Sees(rs, 0, p, rs[p]) && !Sees(rs, 0, q, rs[q])
    ensures now[p] != now[q]
  {
    hide Clean, Slug, FirstFree, Assigned;
    SameLength(rs, was, names, now);
    AssignedOne(rs, was, names, now, p);
    AssignedOne(rs, was, names, now, q);
    if Sole(rs, was, q) {
      assert was[q] in Taken(was);
    } else {
      assert (was + now[..q])[|was| + p] == now[p];
    }
  }

  lemma FirstPlaceOf(rs: seq<PeerRecord>, i: nat) returns (p: nat)
    requires i < |rs|
    ensures p <= i && rs[p] == rs[i] && !Sees(rs, 0, p, rs[p])
  {
    assert Sees(rs, 0, i + 1, rs[i]);
    p := FirstPlace(rs, i + 1, rs[i]);
  }

  lemma SameId(rs: seq<PeerRecord>, was: seq<string>, names: seq<string>, now: seq<string>, i: nat, j: nat)
    requires |names| == |was| == |rs| && Assigned(rs, was, names, now, |was|) && i < |was| && j < |was| && rs[i] == rs[j]
    ensures now[i] == now[j]
  {
  }

  lemma AssignedTwo(rs: seq<PeerRecord>, was: seq<string>, names: seq<string>, now: seq<string>, i: nat, j: nat)
    requires |names| == |was| == |rs| && Assigned(rs, was, names, now, |was|) && i < |was| && j < |was| && rs[i] != rs[j]
    ensures now[i] != now[j]
  {
    hide Assigned, Sees;
    SameLength(rs, was, names, now);
    var p := FirstPlaceOf(rs, i);
    var q := FirstPlaceOf(rs, j);
    if p < q { AssignedInOrder(rs, was, names, now, p, q); } else { AssignedInOrder(rs, was, names, now, q, p); }
    SameId(rs, was, names, now, i, p);
    SameId(rs, was, names, now, j, q);
  }

  /** Different records get different ids, all of them present, clean and not the reserved
      one. */
  lemma AssignedIds(rs: seq<PeerRecord>, was: seq<string>, names: seq<string>, now: seq<string>)
    requires |names| == |was| == |rs| && Assigned(rs, was, names, now, |was|)
    ensures forall i, j :: 0 <= i < |rs| && 0 <= j < |rs| ==> (now[i] == now[j] <==> rs[i] == rs[j])
    ensures forall i :: 0 <= i < |now| ==> now[i] != "" && now[i] != LOCAL_ID
    ensures (forall i :: 0 <= i < |was| && was[i] != "" ==> Clean(was[i])) ==>
              forall i :: 0 <= i < |now| ==> Clean(now[i])
  {
    hide Clean, Taken, FirstFree, Sole;
    forall i | 0 <= i < |now|
      ensures now[i] != "" && now[i] != LOCAL_ID && (Clean(now[i]) || (now[i] == was[i] && was[i] != ""))
    {
      AssignedOne(rs, was, names, now, i);
    }
    forall i, j | 0 <= i < |rs| && 0 <= j < |rs| && rs[i] != rs[j] ensures now[i] != now[j] {
      AssignedTwo(rs, was, names, now, i, j);
    }
  }

  /** No id that is present stands twice, and none is the reserved one. */
  ghost predicate DistinctIds(ids: seq<string>) {
    forall i :: 0 <= i < |ids| && ids[i] != "" ==> Keeps(ids, i)
  }

  /** One record's id is kept exactly if it is sole; otherwise it becomes one that no record
      had. */
  lemma KeepsIff(rs: seq<PeerRecord>, was: seq<string>, names: seq<string>, now: seq<string>, i: nat)
    requires |names| == |was| == |rs| && Assigned(rs, was, names, now, |was|) && i < |was| && was[i] != ""
    ensures now[i] == was[i] <==> Sole(rs, was, i)
  {
    hide Clean, FirstFree, Assigned;
    AssignedOne(rs, was, names, now, i);
    assert was[i] in Taken(was);
  }

  /** Every id that is present is left alone exactly if they are distinct and none is the
      reserved one; a record that stands twice has its id twice. */
  lemma StableIff(rs: seq<PeerRecord>, was: seq<string>, names: seq<string>, now: seq<string>)
    requires |names| == |was| == |rs| && Aliased(rs, was) && Assigned(rs, was, names, now, |was|)
    ensures (forall i :: 0 <= i < |was| && was[i] != "" ==> now[i] == was[i]) <==> DistinctIds(was)
  {
    hide Assigned;
    SameLength(rs, was, names, now);
    forall i | 0 <= i < |was| && was[i] != "" ensures now[i] == was[i] <==> Sole(rs, was, i) {
      KeepsIff(rs, was, names, now, i);
    }
    if DistinctIds(was) {
      forall i | 0 <= i < |was| && was[i] != "" ensures Once(rs, i) { DistinctStandOnce(rs, was, i); }
    }
  }

  lemma DistinctStandOnce(rs: seq<PeerRecord>, was: seq<string>, i: nat)
    requires Aliased(rs, was) && DistinctIds(was) && i < |was| && was[i] != ""
    ensures Once(rs, i)
  {
    assert Keeps(was, i);
    forall j | i < j < |rs| ensures rs[j] != rs[i] {
      assert was[j] != "" ==> Keeps(was, j);
    }
  }
}
