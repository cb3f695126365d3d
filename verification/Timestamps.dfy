/** The time stamps of include/Timestamp.hpp: seconds and microseconds, kept in normal form. */
module Timestamps {
  const MILLION := 1000000

  class Timestamp {
    var tv_sec: int
    var tv_usec: int

    ghost predicate Normal()
      reads this
    {
      0 <= tv_usec < MILLION
    }

    /** The microseconds that the two fields stand for. */
    ghost function Total(): int
      reads this
    {
      tv_sec * MILLION + tv_usec
    }

    /** A clock reading, in microseconds since the epoch. */
    constructor (reading: nat)
      ensures Normal() && Total() == reading
    {
      tv_sec, tv_usec := reading / MILLION, reading % MILLION;
    }

    method SetNow(reading: nat)
      modifies this
      ensures Normal() && Total() == reading
    {
      tv_sec, tv_usec := reading / MILLION, reading % MILLION;
    }

    /** add(unsigned int): whole seconds are carried, however many there are. */
    method AddUsec(usec: nat)
      requires Normal()
      modifies this
      ensures Normal() && Total() == old(Total()) + usec
    {
      tv_usec := tv_usec + usec;
      tv_sec := tv_sec + tv_usec / MILLION;
      tv_usec := tv_usec % MILLION;
    }

    /** add(Timestamp): one carry or borrow, enough for less than a second either way. */
    method Add(right: Timestamp)
      requires Normal() && -MILLION <= right.tv_usec < MILLION
      modifies this
      ensures Normal() && Total() == old(Total() + right.Total())
    {
      tv_sec, tv_usec := tv_sec + right.tv_sec, tv_usec + right.tv_usec;
      if tv_usec < 0 {
        tv_usec, tv_sec := tv_usec + MILLION, tv_sec - 1;
      }
      if tv_usec >= MILLION {
        tv_usec, tv_sec := tv_usec - MILLION, tv_sec + 1;
      }
    }

    function SubUsec(right: Timestamp): (d: int)
      reads this, right
      ensures d == Total() - right.Total()
    {
      (tv_sec - right.tv_sec) * MILLION + (tv_usec - right.tv_usec)
    }

    /** On normal forms the comparison of the fields is the order of the totals. */
    predicate Before(right: Timestamp)
      requires Normal() && right.Normal()
      reads this, right
      ensures Before(right) <==> Total() < right.Total()
    {
      tv_sec < right.tv_sec || (tv_sec == right.tv_sec && tv_usec < right.tv_usec)
    }

    predicate After(right: Timestamp)
      requires Normal() && right.Normal()
      reads this, right
      ensures After(right) <==> right.Before(this)
      ensures Before(right) || After(right) || (tv_sec == right.tv_sec && tv_usec == right.tv_usec)
    {
      tv_sec > right.tv_sec || (tv_sec == right.tv_sec && tv_usec > right.tv_usec)
    }
  }
}
