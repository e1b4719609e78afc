// Sequences of anything: distinct elements, repetition, splitting at a separator and joining again.
module Sequences {
  ghost predicate Distinct<T>(items: seq<T>) {
    forall i, j | 0 <= i < j < |items| :: items[i] != items[j]
  }

  function Repeat<T>(n: nat, item: T): (r: seq<T>)
    ensures |r| == n && forall i | 0 <= i < n :: r[i] == item
  {
    if n == 0 then [] else [item] + Repeat(n - 1, item)
  }

  // The pieces between the separators.
  function SplitOn<T(==)>(s: seq<T>, separator: T): (pieces: seq<seq<T>>)
    ensures |pieces| > 0
  {
    if s == [] then [[]]
    else if s[0] == separator then [[]] + SplitOn(s[1..], separator)
    else
      var rest := SplitOn(s[1..], separator);
      [[s[0]] + rest[0]] + rest[1..]
  }

  // The pieces with a separator between any two.
  function Join<T>(pieces: seq<seq<T>>, separator: T): seq<T> {
    if pieces == [] then []
    else if |pieces| == 1 then pieces[0]
    else pieces[0] + [separator] + Join(pieces[1..], separator)
  }

  lemma {:induction false} SplitAtSeparator<T>(piece: seq<T>, separator: T, rest: seq<T>)
    requires separator !in piece
    ensures SplitOn(piece + [separator] + rest, separator) == [piece] + SplitOn(rest, separator)
  {
    var s := piece + [separator] + rest;
    if piece == [] {
      assert s[1..] == rest;
    } else {
      assert s[1..] == piece[1..] + [separator] + rest;
      SplitAtSeparator(piece[1..], separator, rest);
      assert piece == [piece[0]] + piece[1..];
    }
  }

  lemma {:induction false} SplitWhole<T>(piece: seq<T>, separator: T)
    requires separator !in piece
    ensures SplitOn(piece, separator) == [piece]
  {
    if piece == [] {
    } else {
      SplitWhole(piece[1..], separator);
      assert piece == [piece[0]] + piece[1..];
    }
  }

  // Splitting undoes joining; a separator in the last piece only splits that piece further.
  lemma {:induction false} SplitUndoesJoin<T>(pieces: seq<seq<T>>, last: seq<T>, separator: T)
    requires forall i | 0 <= i < |pieces| :: separator !in pieces[i]
    ensures SplitOn(Join(pieces + [last], separator), separator) == pieces + SplitOn(last, separator)
  {
    if pieces == [] {
      assert pieces + [last] == [last];
      assert pieces + SplitOn(last, separator) == SplitOn(last, separator);
    } else {
      assert (pieces + [last])[1..] == pieces[1..] + [last];
      SplitUndoesJoin(pieces[1..], last, separator);
      SplitAtSeparator(pieces[0], separator, Join(pieces[1..] + [last], separator));
      ConsAppend(pieces, SplitOn(last, separator));
    }
  }

  lemma ConsAppend<T>(items: seq<T>, tail: seq<T>)
    requires items != []
    ensures [items[0]] + (items[1..] + tail) == items + tail
  {
  }

  // What follows the last separator is appended.
  lemma {:induction false} JoinAppends<T>(pieces: seq<seq<T>>, last: seq<T>, separator: T)
    ensures Join(pieces + [last], separator) == Join(pieces + [[]], separator) + last
  {
    if pieces == [] {
      assert pieces + [last] == [last];
      assert pieces + [[]] == [[]];
    } else {
      assert (pieces + [last])[1..] == pieces[1..] + [last];
      assert (pieces + [[]])[1..] == pieces[1..] + [[]];
      JoinAppends(pieces[1..], last, separator);
    }
  }
}
