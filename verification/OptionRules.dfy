/** Which of several settings of a server option counts (src/server/option.c): the decision that the code makes
    for each new setting, and what it amounts to for a whole history of settings. */
module OptionRules {

  datatype Origin = INIT | MAP | DEFAULTS | COMMAND | PASSWORD

  datatype Text = NoText | Text(text: string)

  /** A value, whether it came with "override", and where it came from. */
  datatype Setting = Setting(text: Text, force: bool, origin: Origin)

  /** Whether Option_change_node lets a new setting replace the current one. */
  predicate Accepts(cur: Setting, next: Setting)
    requires next.origin != INIT
  {
    match next.origin
    case COMMAND => true
    case DEFAULTS =>
      (match cur.origin
       case COMMAND => false
       case DEFAULTS => !cur.force
       case MAP => next.force
       case PASSWORD => false
       case INIT => true)
    case MAP =>
      (match cur.origin
       case COMMAND => false
       case DEFAULTS => !cur.force
       case MAP => !cur.force
       case PASSWORD => false
       case INIT => true)
    case PASSWORD =>
      (match cur.origin
       case COMMAND => false
       case DEFAULTS => true
       case MAP => true
       case PASSWORD => !cur.force
       case INIT => true)
  }

  // ----- The classes of settings -----

  /** init < defaults < map < map with override < defaults with override < password < password with override
      < command line */
  function Rank(s: Setting): nat {
    match s.origin
    case INIT => 0
    case DEFAULTS => if s.force then 4 else 1
    case MAP => if s.force then 3 else 2
    case PASSWORD => if s.force then 6 else 5
    case COMMAND => 7
  }

  /** In the classes with override the first setting stays; in the others the last one counts. */
  predicate FirstStays(s: Setting) { s.force && s.origin in {MAP, DEFAULTS, PASSWORD} }

  lemma AcceptsByRank(cur: Setting, next: Setting)
    requires next.origin != INIT
    ensures Accepts(cur, next) <==> Rank(next) > Rank(cur) || (Rank(next) == Rank(cur) && !FirstStays(cur))
  {
  }

  predicate Settable(h: seq<Setting>) { forall i :: 1 <= i < |h| ==> h[i].origin != INIT }

  /** The setting in force after a history, which begins with the value the option had at first. */
  function Outcome(h: seq<Setting>): Setting
    requires h != [] && Settable(h)
  {
    var n := |h| - 1;
    if n == 0 then h[0] else
    var cur := Outcome(h[..n]);
    if Accepts(cur, h[n]) then h[n] else cur
  }

  /** Setting i is of the highest class in the history, and the first of its class or the last, whichever counts. */
  ghost predicate Wins(h: seq<Setting>, i: int) {
    && 0 <= i < |h| && (forall j :: 0 <= j < |h| ==> Rank(h[j]) <= Rank(h[i]))
    && (if FirstStays(h[i]) then forall j :: 0 <= j < i ==> Rank(h[j]) < Rank(h[i])
        else forall j :: i < j < |h| ==> Rank(h[j]) < Rank(h[i]))
  }

  lemma SameClass(a: Setting, b: Setting)
    requires Rank(a) == Rank(b)
    ensures FirstStays(a) == FirstStays(b)
  {
  }

  lemma {:induction false} OutcomeWins(h: seq<Setting>) returns (i: nat)
    requires h != [] && Settable(h)
    ensures Wins(h, i) && Outcome(h) == h[i]
    decreases |h|
  {
    var n := |h| - 1;
    if n == 0 { return 0; }
    var k := OutcomeWins(h[..n]);
    AcceptsByRank(h[k], h[n]);
    hide Accepts, Rank, FirstStays;
    if Rank(h[n]) == Rank(h[k]) { SameClass(h[n], h[k]); }
    i := if Accepts(h[k], h[n]) then n else k;
    assert forall j :: 0 <= j < n ==> h[..n][j] == h[j];
  }

  predicate From(s: Setting, origin: Origin, forced: bool) { s.origin == origin && (forced ==> s.force) }

  ghost predicate Has(h: seq<Setting>, origin: Origin, forced: bool) { exists i :: 0 <= i < |h| && From(h[i], origin, forced) }

  ghost predicate IsLast(h: seq<Setting>, i: int, origin: Origin) {
    0 <= i < |h| && h[i].origin == origin && forall j :: i < j < |h| ==> h[j].origin != origin
  }

  ghost predicate IsFirstForced(h: seq<Setting>, i: int, origin: Origin) {
    0 <= i < |h| && From(h[i], origin, true) && forall j :: 0 <= j < i ==> !From(h[j], origin, true)
  }

  /** The last setting of the command line counts.  If there is none, the first of the password file with override, then the
      last of the password file; then the first of the defaults file with override, the first of the map with override, the
      last of the map, and the last of the defaults file. */
  ghost predicate Counts(h: seq<Setting>, i: int) {
    if Has(h, COMMAND, false) then IsLast(h, i, COMMAND)
    else if Has(h, PASSWORD, true) then IsFirstForced(h, i, PASSWORD)
    else if Has(h, PASSWORD, false) then IsLast(h, i, PASSWORD)
    else if Has(h, DEFAULTS, true) then IsFirstForced(h, i, DEFAULTS)
    else if Has(h, MAP, true) then IsFirstForced(h, i, MAP)
    else if Has(h, MAP, false) then IsLast(h, i, MAP)
    else i == |h| - 1
  }

  /** The value an option had at first gives way to any setting, and of the settings the one that counts is in force. */
  lemma SettingInForce(h: seq<Setting>, i: int)
    requires h != [] && Settable(h) && h[0].origin == INIT && Counts(h, i)
    ensures Outcome(h) == h[i]
  {
    OutcomeIsWinner(h, i);
  }

  /** After any history of settings, the one in force is exactly the winner by class. */
  lemma OutcomeIsWinner(h: seq<Setting>, i: int)
    requires h != [] && Settable(h) && Wins(h, i)
    ensures Outcome(h) == h[i]
  {
    var k := OutcomeWins(h);
    hide Rank, FirstStays, Outcome;
    if i < k { SameClass(h[i], h[k]); }
    if k < i { SameClass(h[i], h[k]); }
  }
}
