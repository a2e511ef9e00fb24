/**
 What a ScyllaDB row gives back (internal/storage/scylla.go). The timestamp of a message is
 kept in a column of millisecond precision, while the signing payload spells it out to the
 nanosecond (internal/models/message.go), so an entry read back need not be the entry that
 was inserted. This module says exactly when it verifies.
 */
module Columns {
  import opened Hashing
  import opened Options
  import opened Models
  import opened Chain

  /** What storing and reading makes of the text of a timestamp. Any function at all; the
      one of the CQL column is Milliseconds, below. */
  type Column = string -> string

  /** scanEntry: every other column comes back as it was inserted. */
  function Back(ms: Column, e: LogEntry): LogEntry {
    e.(message := e.message.(timestamp := ms(e.message.timestamp)))
  }

  function ReadBack(ms: Column, es: seq<LogEntry>): seq<LogEntry> {
    seq(|es|, i requires 0 <= i < |es| => Back(ms, es[i]))
  }

  /** Position by position, for both verifiers and whatever the column does. An entry that was
      good when it was inserted verifies on reading exactly if the column keeps its
      timestamp; if not it is reported as tampered with, or a collision is exhibited. */
  lemma {:induction false} ReadBackFault(cr: Crypto, ms: Column, es: seq<LogEntry>, i: nat)
    requires Chained(cr, es) && i < |es|
    ensures var back, ts := ReadBack(ms, es), es[i].message.timestamp;
            && (ms(ts) == ts ==>
                  FaultAt(cr, back, i).None? && EntryFault(cr, back[i], PrevHash(back, i)).None?)
            && (ms(ts) != ts ==>
                  || (FaultAt(cr, back, i) == Some(TamperedEntry)
                      && EntryFault(cr, back[i], PrevHash(back, i)) == Some(TamperedEntry))
                  || Collides(cr.sha, EntryCollision(cr.sha, es[i], back[i])))
  {
    hide VerifyMessage, EntryCollision, PreimageOf;
    var back := ReadBack(ms, es);
    assert FaultAt(cr, es, i).None?;
    assert back[i] == Back(ms, es[i]) && PrevHash(back, i) == PrevHash(es, i);
    SignatureWidth(cr, es[i].message);
    if ComputeHash(cr.sha, back[i]) == es[i].entryHash {
      EntryBinding(cr.sha, es[i], back[i]);
    }
  }

  lemma SignatureWidth(cr: Crypto, m: SignedMessage)
    requires VerifyMessage(cr.ed, m)
    ensures |m.signature| == SIGNATURE_SIZE
  {}

  /** A whole log read back verifies exactly if the column keeps every timestamp of it, or a
      collision is exhibited. */
  lemma {:induction false} ReadBackVerifies(cr: Crypto, ms: Column, es: seq<LogEntry>)
    requires Chained(cr, es)
    ensures (forall i :: 0 <= i < |es| ==> ms(es[i].message.timestamp) == es[i].message.timestamp) ==>
              Chained(cr, ReadBack(ms, es))
    ensures Chained(cr, ReadBack(ms, es)) ==>
              forall i :: 0 <= i < |es| ==>
                || ms(es[i].message.timestamp) == es[i].message.timestamp
                || Collides(cr.sha, EntryCollision(cr.sha, es[i], Back(ms, es[i])))
  {
    hide FaultAt, EntryFault, EntryCollision;
    forall i | 0 <= i < |es|
      ensures ms(es[i].message.timestamp) == es[i].message.timestamp ==> FaultAt(cr, ReadBack(ms, es), i).None?
      ensures FaultAt(cr, ReadBack(ms, es), i).None? ==>
                || ms(es[i].message.timestamp) == es[i].message.timestamp
                || Collides(cr.sha, EntryCollision(cr.sha, es[i], Back(ms, es[i])))
    {
      ReadBackFault(cr, ms, es, i);
    }
  }

  // ---------------------------------------------------------------- the column itself

  /** Where the fraction of the seconds starts: the first dot, if any. */
  function DotAt(ts: string): (d: nat)
    ensures d <= |ts|
    ensures d < |ts| ==> ts[d] == '.'
    ensures forall j :: 0 <= j < d ==> ts[j] != '.'
  {
    if ts == "" || ts[0] == '.' then 0 else 1 + DotAt(ts[1..])
  }

  function TrimZeros(s: string): (trimmed: string)
    ensures trimmed <= s
    ensures trimmed == s <==> s == "" || s[|s| - 1] != '0'
  {
    if s != "" && s[|s| - 1] == '0' then TrimZeros(s[..|s| - 1]) else s
  }

  /** A timestamp cut to milliseconds and printed again in UTC as RFC3339Nano prints it:
      without trailing zeros, and without the dot when nothing is left. */
  function Milliseconds(ts: string): string {
    var d := DotAt(ts);
    if d + 2 > |ts| then ts
    else
      var fraction := ts[d + 1..|ts| - 1];
      var kept := TrimZeros(if |fraction| > 3 then fraction[..3] else fraction);
      ts[..d] + (if kept == "" then "" else "." + kept) + ts[|ts| - 1..]
  }

  function Kept(fraction: string): string {
    TrimZeros(if |fraction| > 3 then fraction[..3] else fraction)
  }

  lemma MillisecondsOf(date: string, fraction: string)
    requires '.' !in date
    ensures Milliseconds(date + "Z") == date + "Z"
    ensures Milliseconds(date + "." + fraction + "Z")
         == date + (if Kept(fraction) == "" then "" else "." + Kept(fraction)) + "Z"
  {
    hide TrimZeros;
    var whole, ts := date + "Z", date + "." + fraction + "Z";
    assert forall j :: 0 <= j < |whole| ==> whole[j] != '.';
    assert ts[|date|] == '.' && forall j :: 0 <= j < |date| ==> ts[j] == date[j];
    assert DotAt(ts) == |date|;
    assert ts[|date| + 1..|ts| - 1] == fraction && ts[..|date|] == date && ts[|ts| - 1..] == "Z";
  }

  /** A finer timestamp comes back with the first three digits of its fraction, without the
      zeros at their end. */
  lemma MillisecondsCut(date: string, kept: string, zeros: string, rest: string)
    requires '.' !in date && |kept| + |zeros| == 3 && rest != ""
    requires (kept != "" ==> kept[|kept| - 1] != '0') && forall i :: 0 <= i < |zeros| ==> zeros[i] == '0'
    ensures Milliseconds(date + "." + (kept + zeros + rest) + "Z") == date + (if kept == "" then "" else "." + kept) + "Z"
  {
    hide Milliseconds;
    MillisecondsOf(date, kept + zeros + rest);
    assert (kept + zeros + rest)[..3] == kept + zeros;
    TrimsZeros(kept, zeros);
  }

  lemma {:induction false} TrimsZeros(kept: string, zeros: string)
    requires (kept != "" ==> kept[|kept| - 1] != '0') && forall i :: 0 <= i < |zeros| ==> zeros[i] == '0'
    ensures TrimZeros(kept + zeros) == kept
    decreases |zeros|
  {
    if zeros == "" {
      assert kept + zeros == kept;
    } else {
      var fewer := zeros[..|zeros| - 1];
      assert (kept + zeros)[..|kept + zeros| - 1] == kept + fewer;
      TrimsZeros(kept, fewer);
    }
  }

  /** As that format prints them, exactly the timestamps of at most three fractional digits
      are kept. */
  lemma MillisecondsKeeps(date: string, fraction: string)
    requires '.' !in date && fraction != "" && fraction[|fraction| - 1] != '0'
    ensures Milliseconds(date + "Z") == date + "Z"
    ensures Milliseconds(date + "." + fraction + "Z") == date + "." + fraction + "Z" <==> |fraction| <= 3
  {
    hide Milliseconds;
    MillisecondsOf(date, fraction);
    if |fraction| <= 3 {
      assert Kept(fraction) == fraction;
      assert date + ("." + fraction) + "Z" == date + "." + fraction + "Z";
    } else {
      assert |Kept(fraction)| <= 3;
      assert |Milliseconds(date + "." + fraction + "Z")| < |date + "." + fraction + "Z"|;
    }
  }
}
