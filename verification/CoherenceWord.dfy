/** The coherence word of the derivative cache: `(sequence << 1) | dirty` in one
    64-bit atomic, together with the loop that rotates generations until the
    word is clean. */
module CoherenceWord {

  const WORD_LIMIT: int := 0x1_0000_0000_0000_0000

  type Word = w: int | 0 <= w < WORD_LIMIT

  /** Cache reads are allowed while the low bit is clear. */
  predicate Clean(w: int) {
    w % 2 == 0
  }

  /** `mark_coherence_dirty`, with the 64-bit truncation written out. */
  function Dirtied(w: Word): Word {
    var sequence := w / 2 + 1;
    (2 * sequence) % WORD_LIMIT + 1
  }

  /** The value a successful `publish_coherence_generation` leaves behind. */
  function Published(ticket: Word): Word {
    (ticket + 1) % WORD_LIMIT
  }

  /** The same two updates on an unbounded counter. */
  function DirtiedUnbounded(n: nat): nat {
    2 * (n / 2 + 1) + 1
  }

  lemma ModuloIsUnique(n: nat, q: nat, r: nat)
    requires n == q * WORD_LIMIT + r && r < WORD_LIMIT
    ensures n % WORD_LIMIT == r
  {
  }

  lemma DirtyCommutes(n: nat)
    ensures Dirtied(n % WORD_LIMIT) == DirtiedUnbounded(n) % WORD_LIMIT
    ensures Clean(n % WORD_LIMIT) <==> Clean(n)
  {
    var q, r := n / WORD_LIMIT, n % WORD_LIMIT;
    assert n == q * WORD_LIMIT + r;
    assert n / 2 == q * (WORD_LIMIT / 2) + r / 2;
    var dirty := 2 * (r / 2 + 1) + 1;
    assert DirtiedUnbounded(n) == q * WORD_LIMIT + dirty;
    if dirty < WORD_LIMIT {
      ModuloIsUnique(DirtiedUnbounded(n), q, dirty);
    } else {
      assert DirtiedUnbounded(n) == (q + 1) * WORD_LIMIT + (dirty - WORD_LIMIT);
      ModuloIsUnique(DirtiedUnbounded(n), q + 1, dirty - WORD_LIMIT);
    }
  }

  lemma PublishCommutes(n: nat)
    ensures Published(n % WORD_LIMIT) == (n + 1) % WORD_LIMIT
  {
    var q, r := n / WORD_LIMIT, n % WORD_LIMIT;
    assert n == q * WORD_LIMIT + r;
    if r + 1 < WORD_LIMIT {
      ModuloIsUnique(n + 1, q, r + 1);
    } else {
      ModuloIsUnique(n + 1, q + 1, 0);
    }
  }

  lemma TruncationCommutes(n: nat)
    ensures Dirtied(n % WORD_LIMIT) == DirtiedUnbounded(n) % WORD_LIMIT
    ensures Published(n % WORD_LIMIT) == (n + 1) % WORD_LIMIT
    ensures Clean(n % WORD_LIMIT) <==> Clean(n)
  {
    DirtyCommutes(n);
    PublishCommutes(n);
  }

  /** A compare-exchange cannot tell two counter values apart exactly when they
      differ by a multiple of 2^64: below that distance it never confuses an old
      ticket with a newer word, and at that distance it always does. */
  lemma CompareExchangeConfusesExactlyAtWrap(ticketAt: nat, now: nat)
    requires ticketAt <= now
    ensures ticketAt % WORD_LIMIT == now % WORD_LIMIT <==> (now - ticketAt) % WORD_LIMIT == 0
    ensures now - ticketAt < WORD_LIMIT ==> (ticketAt % WORD_LIMIT == now % WORD_LIMIT <==> ticketAt == now)
  {
    var qa, ra := ticketAt / WORD_LIMIT, ticketAt % WORD_LIMIT;
    var qb, rb := now / WORD_LIMIT, now % WORD_LIMIT;
    assert now - ticketAt == (qb - qa) * WORD_LIMIT + (rb - ra);
    if ra <= rb {
      assert now - ticketAt == (qb - qa) * WORD_LIMIT + (rb - ra) && 0 <= rb - ra < WORD_LIMIT;
    } else {
      assert now - ticketAt == (qb - qa - 1) * WORD_LIMIT + (WORD_LIMIT + rb - ra);
    }
  }

  /** What the rest of the process and Redis do during one turn of the rotation
      loop: the counter of active mutations seen at the check, the invalidations
      that happen before the ticket is read and while the SET is in flight, and
      how the SET is answered. */
  datatype Turn = Turn(active: nat, before: nat, during: nat, reply: Reply)
  datatype Reply = Accepted | Unexpected | Failed
  datatype Outcome = Safe | Suspended | CommandError

  function Invalidations(turns: seq<Turn>): nat {
    if turns == [] then 0 else turns[0].before + turns[0].during + Invalidations(turns[1..])
  }

  /** After the given turns nothing interferes any more. */
  function TurnAt(turns: seq<Turn>, i: nat): Turn {
    if i < |turns| then turns[i] else Turn(0, 0, 0, Accepted)
  }

  /** Whether the ticket of a turn is dirty: the word was at first, or was invalidated
      before, or the turns before it left it so. */
  predicate DirtyAt(word: Word, turns: seq<Turn>, i: nat) {
    i > 0 || TurnAt(turns, i).before > 0 || word % 2 == 1
  }

  lemma {:induction false} InvalidationsOfPrefix(turns: seq<Turn>, n: nat)
    requires n < |turns|
    ensures Invalidations(turns[..n + 1]) == Invalidations(turns[..n]) + turns[n].before + turns[n].during
  {
    if n == 0 {
      assert turns[..1][1..] == [];
    } else {
      InvalidationsOfPrefix(turns[1..], n - 1);
      assert turns[..n + 1][1..] == turns[1..][..n];
      assert turns[..n][1..] == turns[1..][..n - 1];
    }
  }

  lemma {:induction false} PrefixInvalidatesNoMore(turns: seq<Turn>, n: nat)
    requires n <= |turns|
    ensures Invalidations(turns[..n]) <= Invalidations(turns)
    decreases |turns| - n
  {
    if n == |turns| {
      assert turns[..n] == turns;
    } else {
      InvalidationsOfPrefix(turns, n);
      PrefixInvalidatesNoMore(turns, n + 1);
    }
  }

  class Coherence {
    var word: Word
    /** The word without truncation; ties the atomic to the run that produced it. */
    ghost var count: nat

    ghost predicate Valid()
      reads this
    {
      word == count % WORD_LIMIT
    }

    /** A process starts dirty. */
    constructor ()
      ensures Valid() && word == 1 && count == 1
    {
      word := 1;
      count := 1;
    }

    method MarkDirty()
      requires Valid()
      modifies this
      ensures Valid()
      ensures !Clean(word) && word == Dirtied(old(word))
      ensures count == DirtiedUnbounded(old(count)) && count > old(count) + 1
    {
      TruncationCommutes(count);
      word := Dirtied(word);
      count := DirtiedUnbounded(count);
    }

    method Publish(ticket: Word) returns (published: bool)
      requires Valid()
      modifies this
      ensures Valid()
      ensures published <==> old(word) == ticket
      ensures published ==> word == Published(ticket) && count == old(count) + 1
      ensures !published ==> word == old(word) && count == old(count)
    {
      TruncationCommutes(count);
      published := word == ticket;
      if published {
        word := Published(ticket);
        count := count + 1;
      }
    }

    /** `times` invalidations by other tasks. */
    method Interfere(times: nat)
      requires Valid()
      modifies this
      ensures Valid()
      ensures times == 0 ==> word == old(word) && count == old(count)
      ensures times > 0 ==> !Clean(word) && count > old(count)
      ensures count <= old(count) + 3 * times
    {
      for i := 0 to times
        invariant Valid()
        invariant i == 0 ==> word == old(word) && count == old(count)
        invariant i > 0 ==> !Clean(word) && count > old(count)
        invariant count <= old(count) + 3 * i
      {
        MarkDirty();
      }
    }

    /** `set_fresh_generation`: one SET, answered with `reply`, while `during`
        invalidations happen. Only an accepted SET can publish, and it does exactly if
        nothing was invalidated. */
    method SetFreshGeneration(ticket: Word, during: nat, reply: Reply) returns (published: bool, failed: bool)
      requires Valid() && word == ticket && !Clean(ticket) && 3 * during < WORD_LIMIT
      modifies this
      ensures Valid()
      ensures failed <==> reply != Accepted
      ensures published <==> reply == Accepted && during == 0
      ensures Clean(word) <==> published
    {
      ghost var ticketAt := count;
      Interfere(during);
      if reply != Accepted {
        return false, true;
      }
      CompareExchangeConfusesExactlyAtWrap(ticketAt, count);
      published := Publish(ticket);
      TruncationCommutes(ticketAt);
      return published, false;
    }

    /** `rotate_until_safe`, the generation-change mutex being held, so that only
        invalidations interfere. `turns` is the interference; after it the process
        is quiet and Redis answers. `last` is the turn that ends the loop, the first one
        that can. As long as one SET is not overtaken by enough invalidations to wrap
        the word, each turn before it sends one SET in vain, and the loop reports the
        cache safe only with a clean word: one that nobody had dirtied, or one that was
        published after an accepted SET during which nothing was invalidated. */
    method RotateUntilSafe(turns: seq<Turn>) returns (outcome: Outcome, sets: nat, ghost last: nat)
      requires Valid()
      requires forall i :: 0 <= i < |turns| ==> 3 * turns[i].during < WORD_LIMIT
      modifies this
      ensures Valid() && last <= |turns|
      ensures forall i :: 0 <= i < last ==>
                var turn := TurnAt(turns, i);
                turn.active == 0 && DirtyAt(old(word), turns, i) && turn.reply == Accepted && turn.during > 0
      ensures var turn := TurnAt(turns, last);
              && (outcome == Suspended <==> turn.active != 0)
              && (outcome == CommandError <==>
                    turn.active == 0 && DirtyAt(old(word), turns, last) && turn.reply != Accepted)
              && (outcome == Safe && DirtyAt(old(word), turns, last) ==> turn.reply == Accepted && turn.during == 0)
              && sets == last + if turn.active == 0 && DirtyAt(old(word), turns, last) then 1 else 0
      ensures sets <= 1 + Invalidations(turns)
      ensures outcome == Safe ==> Clean(word)
      ensures outcome == CommandError || (last > 0 && outcome == Suspended) ==> !Clean(word)
      ensures sets == 0 ==> word == old(word)
    {
      sets, last := 0, 0;
      var i := 0;
      while true
        invariant Valid()
        invariant 0 <= i <= |turns|
        invariant sets == i <= Invalidations(turns[..i])
        invariant if i == 0 then word == old(word) else !Clean(word)
        invariant forall k :: 0 <= k < i ==>
                    var turn := TurnAt(turns, k);
                    turn.active == 0 && DirtyAt(old(word), turns, k) && turn.reply == Accepted && turn.during > 0
        decreases |turns| - i
      {
        PrefixInvalidatesNoMore(turns, i);
        var turn := if i < |turns| then turns[i] else Turn(0, 0, 0, Accepted);
        if turn.active != 0 {
          return Suspended, sets, i;
        }
        Interfere(turn.before);
        var ticket := word;
        if Clean(ticket) {
          return Safe, sets, i;
        }
        sets := sets + 1;
        var published, failed := SetFreshGeneration(ticket, turn.during, turn.reply);
        if failed {
          return CommandError, sets, i;
        }
        if published {
          return Safe, sets, i;
        }
        InvalidationsOfPrefix(turns, i);
        i := i + 1;
      }
    }
  }
}
