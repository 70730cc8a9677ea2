/** The history section of the page: notes shown most recent first, each
    under a number that counts down to 1, or a placeholder when there are none. */
module Listing {

  /** One shown note with its number (the "Ghi chú <n>" heading). */
  datatype Entry = Entry(number: nat, note: string)

  /** What the history section shows. */
  datatype Display = Placeholder | Items(entries: seq<Entry>)

  /** `reversed(s)`: the same elements, last first. */
  function Reversed(s: seq<string>): (r: seq<string>)
    ensures |r| == |s|
    ensures forall k :: 0 <= k < |s| ==> r[k] == s[|s| - 1 - k]
  {
    if s == [] then [] else Reversed(s[1..]) + [s[0]]
  }

  /** The listing: item `k` of `enumerate(reversed(notes))` is labelled
      `len(notes) - k`. */
  function Shown(notes: seq<string>): (d: Display)
    ensures d == Placeholder <==> notes == []
    ensures d.Items? ==> |d.entries| == |notes|
    ensures d.Items? ==> forall k :: 0 <= k < |notes| ==> d.entries[k] == Entry(|notes| - k, notes[|notes| - 1 - k])
  {
    if notes == [] then Placeholder
    else
      var entries := seq(|notes|, k requires 0 <= k < |notes| => Entry(|notes| - k, Reversed(notes)[k]));
      assert forall k :: 0 <= k < |notes| ==> entries[k] == Entry(|notes| - k, Reversed(notes)[k]);
      Items(entries)
  }

  /** The numbers run from `|notes|` down to 1, each one less than the one
      before; the first item is the most recent note and the last item the
      oldest. */
  lemma ShownOrder(notes: seq<string>)
    requires notes != []
    ensures Shown(notes).Items?
    ensures var e := Shown(notes).entries;
      |e| == |notes| &&
      e[0] == Entry(|notes|, notes[|notes| - 1]) &&
      e[|e| - 1] == Entry(1, notes[0]) &&
      forall k :: 0 < k < |e| ==> e[k].number + 1 == e[k - 1].number
  {
  }

  /** Every note is shown exactly under the number of its position, counted
      from 1 at the oldest. */
  lemma ShownLabelIsPosition(notes: seq<string>, j: nat)
    requires j < |notes|
    ensures Shown(notes).Items?
    ensures Entry(j + 1, notes[j]) == Shown(notes).entries[|notes| - 1 - j]
  {
  }

  /** A new note is shown first under the next number, and every older note
      keeps its number. */
  lemma AppendShownFirst(notes: seq<string>, t: string)
    ensures Shown(notes + [t]).Items?
    ensures Shown(notes + [t]).entries[0] == Entry(|notes| + 1, t)
    ensures notes != [] ==> Shown(notes + [t]).entries[1..] == Shown(notes).entries
  {
  }

  /** The loop of the page over `enumerate(reversed(notes))`, collecting what
      it shows. */
  method Render(notes: seq<string>) returns (d: Display)
    ensures d == Shown(notes)
  {
    if |notes| == 0 {
      return Placeholder;
    }
    var shown: seq<Entry> := [];
    var i := 0;
    while i < |notes|
      invariant 0 <= i <= |notes|
      invariant |shown| == i
      invariant forall k :: 0 <= k < i ==> shown[k] == Entry(|notes| - k, notes[|notes| - 1 - k])
    {
      shown := shown + [Entry(|notes| - i, notes[|notes| - 1 - i])];
      i := i + 1;
    }
    d := Items(shown);
  }
}
