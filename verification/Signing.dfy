/** Nonces and the canonical strings that posts are signed over. */
module Signing {
  import opened Text
  import opened Json
  import opened JsonDecode
  import opened Arithmetic

  // ----- the single-line sweep

  /** What the sweep replaces, given the Unicode general category of each character. */
  predicate Invisible(category: char -> string, c: char) {
    var n := c as int;
    "C" <= category(c) || category(c) == "Zl" || category(c) == "Zp" ||
    n == 0x200B || n == 0x200C || n == 0x200D || n == 0xFEFF || n == 0x2060 || n == 0x180E ||
    0x202A <= n <= 0x202E || 0x2066 <= n <= 0x2069 || n == 0x200E || n == 0x200F || n == 0x061C ||
    n < 0x20 || 0x7F <= n <= 0x9F
  }

  /** Position by position, and every character of the result is visible or a space. */
  ghost predicate SweptTo(category: char -> string, text: string, swept: string) {
    |swept| == |text| &&
    forall i :: 0 <= i < |text| ==> swept[i] == if Invisible(category, text[i]) then ' ' else text[i]
  }

  function Swept(category: char -> string, text: string): (swept: string)
    ensures SweptTo(category, text, swept)
  {
    seq(|text|, i requires 0 <= i < |text| => if Invisible(category, text[i]) then ' ' else text[i])
  }

  method SweepText(category: char -> string, text: string) returns (swept: string)
    ensures swept == Swept(category, text)
  {
    swept := "";
    var i := 0;
    while i < |text|
      invariant 0 <= i <= |text| && |swept| == i
      invariant forall k :: 0 <= k < i ==> swept[k] == if Invisible(category, text[k]) then ' ' else text[k]
    {
      var ch := text[i];
      var o, cat := ch as int, category(ch);
      if "C" <= cat || cat == "Zl" || cat == "Zp" {
        swept := swept + " ";
      } else if o in [0x200B, 0x200C, 0x200D, 0xFEFF, 0x2060, 0x180E] {
        swept := swept + " ";
      } else if 0x202A <= o <= 0x202E || 0x2066 <= o <= 0x2069 || o in [0x200E, 0x200F, 0x061C] {
        swept := swept + " ";
      } else if o < 0x20 || 0x7F <= o <= 0x9F {
        swept := swept + " ";
      } else {
        swept := swept + [ch];
      }
      i := i + 1;
    }
  }

  /** Sweeping twice changes nothing more, and neither does cutting a swept text short. */
  lemma SweepIdempotent(category: char -> string, text: string, n: nat)
    requires n <= |text|
    ensures Swept(category, Swept(category, text)[..n]) == Swept(category, text)[..n]
  {
    var once := Swept(category, text)[..n];
    var twice := Swept(category, once);
    forall i | 0 <= i < n ensures twice[i] == once[i] {
      assert once[i] == if Invisible(category, text[i]) then ' ' else text[i];
    }
  }

  /** What is left of a text: controls, zero-width characters, joiners, the byte order mark and
      direction marks are spaces, and so is what Unicode counts among others or as a line or
      paragraph separator; everything else stays. */
  lemma SweptClean(category: char -> string, text: string, i: nat)
    requires i < |text|
    ensures var n := text[i] as int; var left := Swept(category, text)[i];
      (category(text[i]) != "" && category(text[i])[0] == 'C' ==> left == ' ') &&
      (category(text[i]) == "Zl" || category(text[i]) == "Zp" ==> left == ' ') &&
      (n in {0x061C, 0x180E, 0x200B, 0x200C, 0x200D, 0x200E, 0x200F, 0x2060, 0xFEFF} ==> left == ' ') &&
      (n < 32 || 127 <= n < 160 || 0x202A <= n < 0x202F || 0x2066 <= n < 0x206A ==> left == ' ') &&
      (left != text[i] ==>
        left == ' ' &&
        ((category(text[i]) != "" && category(text[i])[0] == 'C') || category(text[i]) in {"Zl", "Zp"} || n < 32 || 127 <= n < 160 ||
         0x202A <= n < 0x202F || 0x2066 <= n < 0x206A ||
         n in {0x061C, 0x180E, 0x200B, 0x200C, 0x200D, 0x200E, 0x200F, 0x2060, 0xFEFF}))
  {
    assert "C" <= category(text[i]) <==> category(text[i]) != "" && category(text[i])[0] == 'C';
  }

  // ----- the canonical string

  predicate IsRoomChar(c: char) {
    'a' <= c <= 'z' || '0' <= c <= '9' || c == '_' || c == '-'
  }

  /** `^[a-z0-9][a-z0-9_-]{0,47}$`. */
  predicate IsRoom(s: string) {
    var t := Chomp(s);
    1 <= |t| <= 48 && EveryChar(t, IsRoomChar) && t[0] != '_' && t[0] != '-'
  }

  /** `^[0-9]{1,19}$`. */
  predicate IsNonce(s: string) {
    var t := Chomp(s);
    1 <= |t| <= 19 && EveryChar(t, IsDigit)
  }

  const LOWER := "abcdefghijklm" + "nopqrstuvwxyz"

  /** One of the characters, as far as a string spells with them only, and no longer than that. */
  ghost predicate Spelt(s: string, letters: string, most: nat) {
    1 <= |s| <= most && forall i :: 0 <= i < |s| ==> s[i] in letters
  }

  /** A room name is one to 48 small letters, digits, underscores and hyphens, the first one a
      letter or digit; a nonce is one to 19 digits. One newline may follow either. */
  lemma PatternsExactly(s: string)
    ensures IsRoom(s) <==>
      exists t: string :: (s == t || s == t + "\n") && Spelt(t, LOWER + "0123456789_-", 48) && t[0] in LOWER + "0123456789"
    ensures IsNonce(s) <==> exists t: string :: (s == t || s == t + "\n") && Spelt(t, "0123456789", 19)
  {
    forall c: char
      ensures c in LOWER + "0123456789_-" <==> IsRoomChar(c)
      ensures c in LOWER + "0123456789" <==> IsRoomChar(c) && c != '_' && c != '-'
      ensures c in "0123456789" <==> IsDigit(c)
    {
      LettersOf(c);
    }
    hide LOWER;
    var t := Chomp(s);
    assert s == t || s == t + "\n";
    ChompSpelt(s);
    if u: string :| (s == u || s == u + "\n") && Spelt(u, LOWER + "0123456789_-", 48) && u[0] in LOWER + "0123456789" {
      assert u[|u| - 1] in LOWER + "0123456789_-";
      assert u == t;
    }
    if u: string :| (s == u || s == u + "\n") && Spelt(u, "0123456789", 19) {
      assert u[|u| - 1] in "0123456789";
      assert u == t;
    }
  }

  lemma LettersOf(c: char)
    ensures c in LOWER <==> 'a' <= c <= 'z'
    ensures c in "0123456789_-" <==> '0' <= c <= '9' || c == '_' || c == '-'
    ensures c in "0123456789" <==> '0' <= c <= '9'
  {
  }

  lemma ChompSpelt(s: string)
    ensures s != "" && s[|s| - 1] != '\n' ==> Chomp(s) == s
    ensures forall u: string :: s == u + "\n" ==> Chomp(s) == u
  {
  }

  datatype Signable = Payload(text: string) | InvalidRoom | InvalidNonce

  function CanonicalString(category: char -> string, room: string, nonce: string, text: string): Signable {
    if !IsRoom(room) then InvalidRoom
    else if !IsNonce(nonce) then InvalidNonce
    else Payload(room + "|" + nonce + "|" + Swept(category, text))
  }

  lemma PatternHasNoBar(s: string)
    requires IsRoom(s) || IsNonce(s)
    ensures '|' !in s
  {
    forall i | 0 <= i < |s| ensures s[i] != '|' {
      if i < |Chomp(s)| {
        assert s[i] == Chomp(s)[i];
      }
    }
  }

  /** Room, nonce and swept text can be read back from what was signed. */
  lemma PayloadInjective(category: char -> string, room: string, nonce: string, text: string,
                         room': string, nonce': string, text': string)
    requires CanonicalString(category, room, nonce, text).Payload?
    requires CanonicalString(category, room, nonce, text) == CanonicalString(category, room', nonce', text')
    ensures room == room' && nonce == nonce' && Swept(category, text) == Swept(category, text')
  {
    hide IsRoom, IsNonce, Swept;
    PatternHasNoBar(room);
    PatternHasNoBar(room');
    PatternHasNoBar(nonce);
    PatternHasNoBar(nonce');
    var rest, rest' := nonce + "|" + Swept(category, text), nonce' + "|" + Swept(category, text');
    assert room + "|" + rest == CanonicalString(category, room, nonce, text).text;
    assert room' + "|" + rest' == CanonicalString(category, room', nonce', text').text;
    BarSplits(room, room', rest, rest');
    BarSplits(nonce, nonce', Swept(category, text), Swept(category, text'));
  }

  // ----- one process's nonce generator

  const NONCE_MAX: nat := 9_999_999_999_999_999_999
  const COLUMN_MAX: nat := 0x7FFF_FFFF

  function Ticked(last: nat, now: int): nat {
    if now <= last || now > NONCE_MAX then last + 1 else now
  }

  function Bumped(last: nat, candidate: int): nat {
    if candidate <= last then last + 1 else candidate
  }

  /** The least number that is at least the candidate and above the last nonce. */
  ghost predicate LeastAbove(n: nat, candidate: int, last: nat) {
    MayFollow(n, candidate, last) && forall m: nat :: MayFollow(m, candidate, last) ==> n <= m
  }

  predicate MayFollow(n: nat, candidate: int, last: nat) {
    n >= candidate && n > last
  }

  /** A nonce is the least number above the last one that reaches the clock, or the candidate from
      outside; a clock beyond nineteen digits is ignored. */
  lemma LeastNonces(last: nat, now: int, candidate: int)
    ensures LeastAbove(Ticked(last, now), if now <= 9_999_999_999_999_999_999 then now else 0, last)
    ensures LeastAbove(Bumped(last, candidate), candidate, last)
  {
  }

  class NonceSource {
    var last: nat

    constructor ()
      ensures last == 0
    {
      last := 0;
    }

    method Next(now: int) returns (nonce: nat)
      modifies this
      ensures nonce == last == Ticked(old(last), now)
    {
      var t := now;
      if t <= last {
        t := last + 1;
      }
      if t > NONCE_MAX {
        t := last + 1;
      }
      last := t;
      nonce := t;
    }

    /** For a candidate that reads as an integer, which the posting code checks beforehand. */
    method EnsureGreater(candidate: int) returns (nonce: nat)
      modifies this
      ensures nonce == last == Bumped(old(last), candidate)
    {
      var n := candidate;
      if n <= last {
        n := last + 1;
      }
      last := n;
      nonce := n;
    }
  }

  /** What a process may ask of its generator, at any clock reading. */
  datatype Draw = Clock(now: int) | Candidate(n: int)

  function Issue(last: nat, d: Draw): (nonce: nat)
    ensures nonce > last
  {
    match d
    case Clock(now) => Ticked(last, now)
    case Candidate(n) => Bumped(last, n)
  }

  function Issued(last: nat, draws: seq<Draw>): (nonces: seq<nat>)
    ensures |nonces| == |draws|
    decreases |draws|
  {
    if draws == [] then [] else
      var n := Issue(last, draws[0]);
      [n] + Issued(n, draws[1..])
  }

  lemma {:induction false} IssuedRise(last: nat, draws: seq<Draw>, i: nat, j: nat)
    requires i < j < |draws|
    ensures last < Issued(last, draws)[i] < Issued(last, draws)[j]
    decreases |draws|
  {
    var n := Issue(last, draws[0]);
    if i > 0 {
      IssuedRise(n, draws[1..], i - 1, j - 1);
    } else {
      IssuedAbove(n, draws[1..], j - 1);
    }
  }

  lemma {:induction false} IssuedAbove(last: nat, draws: seq<Draw>, i: nat)
    requires i < |draws|
    ensures last < Issued(last, draws)[i]
    decreases |draws|
  {
    if i > 0 {
      IssuedAbove(Issue(last, draws[0]), draws[1..], i - 1);
    }
  }

  lemma DecimalInjective(m: nat, n: nat)
    requires Decimal(m) == Decimal(n)
    ensures m == n
  {
    NatRoundTrip(m, "");
    NatRoundTrip(n, "");
    assert Decimal(m) + "" == Decimal(n) + "";
  }

  /** No two strings a process signs with its generator's nonces are equal, whatever the
      clock does and whatever the rooms and texts are. */
  lemma SignedOnce(category: char -> string, last: nat, draws: seq<Draw>, i: nat, j: nat,
                   room: string, text: string, room': string, text': string)
    requires i < j < |draws|
    ensures var nonces := Issued(last, draws);
      var a := CanonicalString(category, room, Decimal(nonces[i]), text);
      var b := CanonicalString(category, room', Decimal(nonces[j]), text');
      a.Payload? && b.Payload? ==> a != b
  {
    hide Issued, Decimal, IsRoom, IsNonce, Swept;
    IssuedRise(last, draws, i, j);
    var nonces := Issued(last, draws);
    var a := CanonicalString(category, room, Decimal(nonces[i]), text);
    var b := CanonicalString(category, room', Decimal(nonces[j]), text');
    if a.Payload? && a == b {
      PayloadInjective(category, room, Decimal(nonces[i]), text, room', Decimal(nonces[j]), text');
      DecimalInjective(nonces[i], nonces[j]);
    }
  }

  /** Once the generator stands at its limit it only issues nonces too long to be signed;
      below it the clock never takes it past. */
  lemma NonceLength(last: nat, now: int)
    ensures Ticked(last, now) <= NONCE_MAX <==> last < NONCE_MAX
    ensures IsNonce(Decimal(Ticked(last, now))) <==> last < NONCE_MAX
  {
    hide NONCE_MAX, IsNonce;
    TickedBound(last, now);
    DecimalSigns(Ticked(last, now));
  }

  lemma TickedBound(last: nat, now: int)
    ensures Ticked(last, now) <= NONCE_MAX <==> last < NONCE_MAX
  {
  }

  lemma {:induction false} DecimalLength(n: nat, k: nat)
    requires k >= 1
    ensures |Decimal(n)| <= k <==> n < Pow(10, k)
  {
    if k == 1 {
      assert Pow(10, 1) == 10 * Pow(10, 0);
    } else if n >= 10 {
      DecimalLength(n / 10, k - 1);
    } else {
      PowPositive(10, k - 1);
    }
  }

  lemma {:induction false} DecimalDigits(n: nat)
    ensures EveryChar(Decimal(n), IsDigit)
  {
    if n >= 10 {
      DecimalDigits(n / 10);
    }
  }

  lemma Nineteen()
    ensures Pow(10, 19) == NONCE_MAX + 1
  {
    assert Pow(10, 6) == 1_000_000;
    assert Pow(10, 12) == 1_000_000_000_000;
    assert Pow(10, 19) == 10_000_000_000_000_000_000;
  }

  lemma DecimalSigns(n: nat)
    ensures IsNonce(Decimal(n)) <==> n <= NONCE_MAX
  {
    hide Decimal, Pow, NONCE_MAX;
    DecimalDigits(n);
    DecimalLength(n, 19);
    Nineteen();
    assert Chomp(Decimal(n)) == Decimal(n);
  }

  // ----- the stored nonce of a room

  /** `next_nonce_db`: the generator is drawn from, then raised above the room's row. A value
      wider than the column makes the transaction fail; the draw is not undone. The largest
      value the column holds is a parameter: 32 bits on PostgreSQL, 64 on SQLite. */
  datatype Stored = Stored(last: nat, rows: map<string, nat>, nonce: Option<nat>)

  function StoredDraw(width: nat, last: nat, rows: map<string, nat>, room: string, now: int): Stored {
    var candidate := Ticked(last, now);
    var n := if room in rows && candidate <= rows[room] then rows[room] + 1 else candidate;
    if n > width then Stored(candidate, rows, None) else Stored(candidate, rows[room := n], Some(n))
  }

  class NonceTable {
    const width: nat
    var rows: map<string, nat>

    method NextNonce(source: NonceSource, room: string, now: int) returns (nonce: Option<nat>)
      modifies this, source
      ensures Stored(source.last, rows, nonce) == StoredDraw(width, old(source.last), old(rows), room, now)
    {
      var candidate := source.Next(now);
      if room !in rows {
        if candidate > width {
          return None;
        }
        rows := rows[room := candidate];
        return Some(candidate);
      }
      if candidate <= rows[room] {
        candidate := rows[room] + 1;
      }
      if candidate > width {
        return None;
      }
      rows := rows[room := candidate];
      return Some(candidate);
    }
  }

  /** A stored draw succeeds exactly when both the generator's value and the one above the room's
      row fit the column. */
  lemma StoredSucceeds(width: nat, last: nat, rows: map<string, nat>, room: string, now: int)
    ensures StoredDraw(width, last, rows, room, now).nonce.Some? <==>
      Ticked(last, now) <= width && (room in rows ==> rows[room] < width)
  {
  }

  /** So on PostgreSQL every draw fails at any clock after the 32-bit range of milliseconds, which
      ended in January 1970, whatever generator and rows hold. */
  lemma PresentDayFails(last: nat, rows: map<string, nat>, room: string, now: int)
    requires 2_147_483_647 < now <= 9_999_999_999_999_999_999
    ensures StoredDraw(COLUMN_MAX, last, rows, room, now).nonce == None
  {
    StoredSucceeds(COLUMN_MAX, last, rows, room, now);
  }

  /** Any process, after any restarts, drawing for any room. */
  datatype Ask = Ask(last: nat, room: string, now: int)

  function RowsAfter(width: nat, rows: map<string, nat>, asks: seq<Ask>): map<string, nat> {
    if asks == [] then rows
    else
      var a := asks[|asks| - 1];
      StoredDraw(width, a.last, RowsAfter(width, rows, asks[..|asks| - 1]), a.room, a.now).rows
  }

  function AnswerTo(width: nat, rows: map<string, nat>, asks: seq<Ask>, i: nat): Option<nat>
    requires i < |asks|
  {
    StoredDraw(width, asks[i].last, RowsAfter(width, rows, asks[..i]), asks[i].room, asks[i].now).nonce
  }

  lemma {:induction false} RowsOnlyRise(width: nat, rows: map<string, nat>, asks: seq<Ask>, i: nat, room: string)
    requires i <= |asks|
    requires room in RowsAfter(width, rows, asks[..i])
    ensures room in RowsAfter(width, rows, asks)
    ensures RowsAfter(width, rows, asks)[room] >= RowsAfter(width, rows, asks[..i])[room]
    decreases |asks|
  {
    if i < |asks| {
      var fewer := asks[..|asks| - 1];
      assert fewer[..i] == asks[..i];
      RowsOnlyRise(width, rows, fewer, i, room);
    } else {
      assert asks[..i] == asks;
    }
  }

  /** Two nonces a room is given are different and in order, whichever processes asked. */
  lemma StoredRise(width: nat, rows: map<string, nat>, asks: seq<Ask>, i: nat, j: nat)
    requires i < j < |asks| && asks[i].room == asks[j].room
    requires AnswerTo(width, rows, asks, i).Some? && AnswerTo(width, rows, asks, j).Some?
    ensures AnswerTo(width, rows, asks, i).value < AnswerTo(width, rows, asks, j).value
  {
    var room := asks[i].room;
    assert asks[..i + 1][..i] == asks[..i];
    assert RowsAfter(width, rows, asks[..i + 1])[room] == AnswerTo(width, rows, asks, i).value;
    assert asks[..j][..i + 1] == asks[..i + 1];
    RowsOnlyRise(width, rows, asks[..j], i + 1, room);
  }

  // ----- mixing the two

  /** What one process does: draws from its generator, or draws a stored nonce for a room, while
      other processes may have raised the room's row to anything. */
  datatype Action = Draws(draw: Draw) | Stores(room: string, now: int, elsewhere: map<string, nat>)

  /** The generator and the nonces issued so far, in order. */
  datatype Issues = Issues(last: nat, nonces: seq<nat>)

  function StoredAnswer(width: nat, last: nat, a: Action): Stored
    requires a.Stores?
  {
    StoredDraw(width, last, a.elsewhere, a.room, a.now)
  }

  function Act(width: nat, u: Issues, a: Action): Issues {
    match a
    case Draws(d) => Issues(Issue(u.last, d), u.nonces + [Issue(u.last, d)])
    case Stores(_, _, _) =>
      var stored := StoredAnswer(width, u.last, a);
      Issues(stored.last, if stored.nonce == None then u.nonces else u.nonces + [stored.nonce.value])
  }

  function Acted(width: nat, actions: seq<Action>): Issues {
    if actions == [] then Issues(0, []) else Act(width, Acted(width, actions[..|actions| - 1]), actions[|actions| - 1])
  }

  /** A stored draw answered with more than the generator had given it. */
  predicate Raised(width: nat, last: nat, a: Action) {
    a.Stores? && StoredAnswer(width, last, a).nonce.Some? &&
    StoredAnswer(width, last, a).nonce.value > StoredAnswer(width, last, a).last
  }

  /** A stored nonce is the least number that reaches the generator's and is above the room's row. */
  lemma StoredLeast(width: nat, last: nat, rows: map<string, nat>, room: string, now: int)
    ensures var r := StoredDraw(width, last, rows, room, now);
      r.last == Ticked(last, now) && r.rows == (if r.nonce == None then rows else rows[room := r.nonce.value]) &&
      (r.nonce.Some? && room in rows ==> LeastAbove(r.nonce.value, r.last, rows[room])) &&
      (r.nonce.Some? && room !in rows ==> r.nonce.value == r.last)
  {
  }

  /** The test a caller could make beforehand: the row is ahead of the candidate. */
  lemma RaisedExactly(width: nat, last: nat, a: Action)
    requires a.Stores?
    ensures Raised(width, last, a) <==>
      a.room in a.elsewhere && Ticked(last, a.now) <= a.elsewhere[a.room] < width
  {
  }

  ghost predicate NeverRaised(width: nat, actions: seq<Action>) {
    actions == [] ||
    (NeverRaised(width, actions[..|actions| - 1]) &&
     !Raised(width, Acted(width, actions[..|actions| - 1]).last, actions[|actions| - 1]))
  }

  ghost predicate StrictlyRising(nonces: seq<nat>) {
    forall i, j :: 0 <= i < j < |nonces| ==> nonces[i] < nonces[j]
  }

  ghost predicate UpTo(nonces: seq<nat>, last: nat) {
    forall i :: 0 <= i < |nonces| ==> nonces[i] <= last
  }

  lemma RisingOneMore(nonces: seq<nat>, last: nat, n: nat)
    requires StrictlyRising(nonces) && UpTo(nonces, last) && n > last
    ensures StrictlyRising(nonces + [n]) && UpTo(nonces + [n], n)
  {
  }

  lemma UpToMore(nonces: seq<nat>, last: nat, n: nat)
    requires UpTo(nonces, last) && n >= last
    ensures UpTo(nonces, n)
  {
  }

  /** As long as no stored draw is raised, all nonces of a process, drawn either way, are in
      rising order, so no two are equal. */
  lemma {:induction false} MixedRise(width: nat, actions: seq<Action>)
    requires NeverRaised(width, actions)
    ensures StrictlyRising(Acted(width, actions).nonces) && UpTo(Acted(width, actions).nonces, Acted(width, actions).last)
    decreases |actions|
  {
    hide StrictlyRising, UpTo, Ticked, Issue;
    if actions == [] {
      NoNonces();
    } else {
      var fewer, a := actions[..|actions| - 1], actions[|actions| - 1];
      MixedRise(width, fewer);
      var u := Acted(width, fewer);
      match a
      case Draws(d) => RisingOneMore(u.nonces, u.last, Issue(u.last, d));
      case Stores(_, _, _) =>
        var n := Ticked(u.last, a.now);
        TickedAbove(u.last, a.now);
        RisingOneMore(u.nonces, u.last, n);
        UpToMore(u.nonces, u.last, n);
    }
  }

  lemma NoNonces()
    ensures StrictlyRising([]) && UpTo([], 0)
  {
  }

  lemma TickedAbove(last: nat, now: int)
    ensures Ticked(last, now) > last
  {
  }

  /** Some single draw would issue again a nonce this history has issued. */
  ghost predicate Repeatable(width: nat, actions: seq<Action>) {
    exists d: Draw :: Issue(Acted(width, actions).last, d) in Acted(width, actions).nonces
  }

  /** The generator can repeat an issued nonce exactly when that nonce lies above its last value. */
  lemma RepeatsExactly(width: nat, actions: seq<Action>)
    ensures Repeatable(width, actions) <==> !UpTo(Acted(width, actions).nonces, Acted(width, actions).last)
  {
    var u := Acted(width, actions);
    if i: nat :| i < |u.nonces| && u.nonces[i] > u.last {
      assert Issue(u.last, Candidate(u.nonces[i])) == u.nonces[i];
    }
  }

  /** No moment of a history can be followed by a repetition. */
  ghost predicate NeverRepeatable(width: nat, actions: seq<Action>) {
    !Repeatable(width, actions) && (actions != [] ==> NeverRepeatable(width, actions[..|actions| - 1]))
  }

  /** Mixing stored and plain draws is safe exactly when no stored draw is ever raised: right
      after a raised one a plain draw can issue its nonce a second time, and otherwise nothing
      issued by either can come again. */
  lemma {:induction false} MixingExactly(width: nat, actions: seq<Action>)
    ensures NeverRepeatable(width, actions) <==> NeverRaised(width, actions)
    decreases |actions|
  {
    hide UpTo, Issue, Ticked, StrictlyRising, Repeatable;
    RepeatsExactly(width, actions);
    if actions != [] {
      var fewer, a := actions[..|actions| - 1], actions[|actions| - 1];
      MixingExactly(width, fewer);
      if NeverRaised(width, actions) {
        MixedRise(width, actions);
      } else if NeverRaised(width, fewer) {
        RaisedAbove(width, fewer, a);
        assert actions == fewer + [a];
      }
    } else {
      MixedRise(width, actions);
    }
  }

  lemma RaisedAbove(width: nat, actions: seq<Action>, a: Action)
    requires Raised(width, Acted(width, actions).last, a)
    ensures !UpTo(Acted(width, actions + [a]).nonces, Acted(width, actions + [a]).last)
  {
    assert (actions + [a])[..|actions|] == actions;
    var u := Acted(width, actions + [a]);
    assert u.nonces[|u.nonces| - 1] > u.last;
  }

  /** The failing input, at a present-day clock and with a column wide enough for it: another
      process has raised the room's row half a minute ahead, the stored draw goes above it, and
      half a minute later a plain draw issues the same nonce. */
  lemma MixedRepeat()
    ensures var now, ahead := 1_760_000_000_000, 1_760_000_030_000;
      var actions := [Stores("lobby", now, map["lobby" := ahead]), Draws(Clock(ahead + 1))];
      Acted(0x7FFF_FFFF_FFFF_FFFF, actions).nonces == [ahead + 1, ahead + 1]
  {
    var now, ahead := 1_760_000_000_000, 1_760_000_030_000;
    var a, b := Stores("lobby", now, map["lobby" := ahead]), Draws(Clock(ahead + 1));
    assert [a, b][..1] == [a] && [a][..0] == [];
    assert Acted(0x7FFF_FFFF_FFFF_FFFF, [a]) == Issues(now, [ahead + 1]);
  }

  // ----- posting

  /** What is posted and what is signed: `signed_post` once a nonce is chosen. */
  datatype Post = Posted(text: string, nonce: string, signed: string) | Refused

  function PostWith(category: char -> string, room: string, nonce: string, raw: string): Post {
    var swept := Swept(category, raw);
    if !IsRoom(room) || Strip(swept) == "" then Refused
    else
      var text := if |swept| > 4096 then swept[..4096] else swept;
      match CanonicalString(category, room, nonce, text)
      case Payload(signed) => Posted(text, nonce, signed)
      case _ => Refused
  }

  /** A post goes out exactly when the room and nonce are well formed and the swept text has
      something but white space in it. */
  lemma PostsExactly(category: char -> string, room: string, nonce: string, raw: string)
    ensures PostWith(category, room, nonce, raw).Posted? <==>
      IsRoom(room) && IsNonce(nonce) && exists i :: 0 <= i < |raw| && !IsSpace(Swept(category, raw)[i])
  {
    hide IsRoom, IsNonce;
    var swept := Swept(category, raw);
    StripEmpty(swept);
    hide Strip, IsSpace;
  }

  lemma {:induction false} StripEmpty(s: string)
    ensures Strip(s) == "" <==> forall i :: 0 <= i < |s| ==> IsSpace(s[i])
  {
    LeftEmpty(s);
    var t := LeftStrip(s);
    if t != "" {
      RightEmpty(t);
    }
    hide IsSpace, LeftStrip, RightStrip;
  }

  lemma {:induction false} LeftEmpty(s: string)
    ensures LeftStrip(s) == "" <==> forall i :: 0 <= i < |s| ==> IsSpace(s[i])
    decreases |s|
  {
    hide IsSpace;
    if s != "" && IsSpace(s[0]) {
      LeftEmpty(s[1..]);
      assert (forall i :: 0 <= i < |s| ==> IsSpace(s[i])) <==> (forall i :: 0 <= i < |s[1..]| ==> IsSpace(s[1..][i])) by {
        assert forall i :: 0 < i < |s| ==> s[i] == s[1..][i - 1];
        assert forall i :: 0 <= i < |s[1..]| ==> s[1..][i] == s[i + 1];
      }
    }
  }

  lemma {:induction false} RightEmpty(s: string)
    requires s != "" && !IsSpace(s[0])
    ensures RightStrip(s) != ""
    decreases |s|
  {
    hide IsSpace;
    if IsSpace(s[|s| - 1]) {
      RightEmpty(s[..|s| - 1]);
    }
  }

  /** The posted body names exactly the text under its signature, cut or not. */
  lemma BodyIsSigned(category: char -> string, room: string, nonce: string, raw: string)
    ensures var p := PostWith(category, room, nonce, raw);
            p.Posted? ==>
              p.signed == room + "|" + p.nonce + "|" + p.text && p.nonce == nonce &&
              p.text == Swept(category, raw)[..(if |raw| <= 4096 then |raw| else 4096)]
  {
    hide Strip, IsRoom, IsNonce;
    var swept := Swept(category, raw);
    var n := if |swept| > 4096 then 4096 else |swept|;
    assert swept[..|swept|] == swept;
    SweepIdempotent(category, raw, n);
  }
}
