/**
 * The ordered-list functions of 05_word_wrangler/word_wrangler.py: remove_duplicates,
 * intersect, merge, merge_sort and gen_all_strings. Words are strings compared as Python
 * compares them, letter by letter with a prefix first.
 */
module WordWrangler {

  // ---------------------------------------------------------------- the order on words

  /** Python's < on strings: the first differing letter decides, and a proper prefix comes first. */
  predicate Less(a: string, b: string)
    decreases |a|
  {
    if a == [] then b != []
    else if b == [] then false
    else if a[0] != b[0] then a[0] < b[0]
    else Less(a[1..], b[1..])
  }

  predicate LessOrEqual(a: string, b: string)
  {
    a == b || Less(a, b)
  }

  lemma {:induction false} LessIrreflexive(a: string)
    ensures !Less(a, a)
    decreases |a|
  {
    if a != [] {
      LessIrreflexive(a[1..]);
    }
  }

  lemma {:induction false} LessTransitive(a: string, b: string, c: string)
    requires Less(a, b) && Less(b, c)
    ensures Less(a, c)
    decreases |a|
  {
    if a != [] && b != [] && c != [] && a[0] == b[0] && b[0] == c[0] {
      LessTransitive(a[1..], b[1..], c[1..]);
    }
  }

  /** Two different words are ordered one way or the other, and never both ways. */
  lemma {:induction false} LessTotal(a: string, b: string)
    ensures a != b <==> Less(a, b) || Less(b, a)
    ensures !(Less(a, b) && Less(b, a))
    decreases |a|
  {
    if a != [] && b != [] && a[0] == b[0] {
      LessTotal(a[1..], b[1..]);
      assert a == [a[0]] + a[1..] && b == [b[0]] + b[1..];
    } else if a == b {
      LessIrreflexive(a);
    }
  }

  lemma LessOrEqualTransitive(a: string, b: string, c: string)
    requires LessOrEqual(a, b) && LessOrEqual(b, c)
    ensures LessOrEqual(a, c)
  {
    if a != b && b != c {
      LessTransitive(a, b, c);
    }
  }

  /** Each entry no later than the next. */
  predicate Sorted(s: seq<string>)
    decreases |s|
  {
    |s| < 2 || (LessOrEqual(s[0], s[1]) && Sorted(s[1..]))
  }

  predicate StrictlySorted(s: seq<string>)
  {
    forall i, j :: 0 <= i < j < |s| ==> Less(s[i], s[j])
  }

  predicate NoRepeats(s: seq<string>)
  {
    forall i, j :: 0 <= i < j < |s| ==> s[i] != s[j]
  }

  /** The entries of r come in the order of their first occurrences in l. */
  predicate FirstOccurrenceOrder(r: seq<string>, l: seq<string>)
  {
    forall i, j, k :: 0 <= i < j < |r| && 0 <= k < |l| && l[k] == r[j] ==> r[i] in l[..k]
  }

  /** In a sorted list every entry is no later than every entry after it. */
  lemma {:induction false} SortedPairs(s: seq<string>, i: nat, j: nat)
    requires Sorted(s) && i < j < |s|
    ensures LessOrEqual(s[i], s[j])
    decreases |s|
  {
    if i > 0 {
      SortedPairs(s[1..], i - 1, j - 1);
    } else if j > 1 {
      SortedPairs(s[1..], 0, j - 1);
      LessOrEqualTransitive(s[0], s[1], s[j]);
    }
  }

  /** So a repeat-free list in first-occurrence order of a sorted list is strictly sorted. */
  lemma FirstOccurrenceOrderSorted(r: seq<string>, l: seq<string>)
    requires Sorted(l) && NoRepeats(r) && FirstOccurrenceOrder(r, l)
    requires forall x :: x in r ==> x in l
    ensures StrictlySorted(r)
  {
    forall i, j | 0 <= i < j < |r|
      ensures Less(r[i], r[j])
    {
      assert r[j] in r;
      var k :| 0 <= k < |l| && l[k] == r[j];
      assert r[i] in l[..k];
      var m :| 0 <= m < k && l[..k][m] == r[i];
      SortedPairs(l, m, k);
    }
  }

  // ---------------------------------------------------------------- remove_duplicates, intersect

  /** One more entry of l seen: it is appended when it was not seen before. */
  lemma FirstOccurrenceNext(r: seq<string>, l: seq<string>, n: nat)
    requires n < |l| && FirstOccurrenceOrder(r, l[..n]) && (forall x :: x in r ==> x in l[..n])
    ensures FirstOccurrenceOrder(r, l[..n + 1])
    ensures l[n] !in l[..n] ==> FirstOccurrenceOrder(r + [l[n]], l[..n + 1])
  {
    var next := l[..n + 1];
    assert next[..n] == l[..n];
    forall i, j, k | 0 <= i < j < |r| && 0 <= k < |next| && next[k] == r[j]
      ensures r[i] in next[..k]
    {
      if k == n {
        assert r[j] in r;
        var k' :| 0 <= k' < n && l[k'] == r[j];
        assert l[..n][..k'] <= next[..k];
        assert r[i] in l[..n][..k'];
      } else {
        assert next[..k] == l[..n][..k];
      }
    }
    if l[n] !in l[..n] {
      var r' := r + [l[n]];
      forall i, j, k | 0 <= i < j < |r'| && 0 <= k < |next| && next[k] == r'[j]
        ensures r'[i] in next[..k]
      {
        if j < |r| {
          assert r'[i] == r[i] && r'[j] == r[j];
        } else {
          assert k == n by {
            assert forall m :: 0 <= m < n ==> l[m] == l[..n][m];
          }
          assert r'[i] == r[i] && next[..k] == l[..n];
        }
      }
    }
  }

  /** remove_duplicates: each entry once, in the order it first appears. */
  method RemoveDuplicates(list1: seq<string>) returns (uniques: seq<string>)
    ensures NoRepeats(uniques)
    ensures forall x :: x in uniques <==> x in list1
    ensures FirstOccurrenceOrder(uniques, list1)
    ensures Sorted(list1) ==> StrictlySorted(uniques)
  {
    uniques := [];
    for i := 0 to |list1|
      invariant NoRepeats(uniques)
      invariant forall x :: x in uniques <==> x in list1[..i]
      invariant FirstOccurrenceOrder(uniques, list1[..i])
    {
      FirstOccurrenceNext(uniques, list1, i);
      assert list1[..i + 1] == list1[..i] + [list1[i]];
      if list1[i] !in uniques {
        uniques := uniques + [list1[i]];
      }
    }
    assert list1[..|list1|] == list1;
    if Sorted(list1) {
      FirstOccurrenceOrderSorted(uniques, list1);
    }
  }

  /** intersect: each entry of list1 that list2 also has, once, in the order of list1. */
  method Intersect(list1: seq<string>, list2: seq<string>) returns (intersection: seq<string>)
    ensures NoRepeats(intersection)
    ensures forall x :: x in intersection <==> x in list1 && x in list2
    ensures FirstOccurrenceOrder(intersection, list1)
    ensures Sorted(list1) ==> StrictlySorted(intersection)
  {
    intersection := [];
    for i := 0 to |list1|
      invariant NoRepeats(intersection)
      invariant forall x :: x in intersection <==> x in list1[..i] && x in list2
      invariant FirstOccurrenceOrder(intersection, list1[..i])
    {
      FirstOccurrenceNext(intersection, list1, i);
      assert list1[..i + 1] == list1[..i] + [list1[i]];
      if list1[i] in list2 && list1[i] !in intersection {
        intersection := intersection + [list1[i]];
      }
    }
    assert list1[..|list1|] == list1;
    if Sorted(list1) {
      FirstOccurrenceOrderSorted(intersection, list1);
    }
  }

  // ---------------------------------------------------------------- merge and merge_sort

  /**
   * What merge returns: the front entries compared, an equal pair taken together, list1's
   * first otherwise when it is smaller, list2's first when not.
   */
  function Merged(a: seq<string>, b: seq<string>): (r: seq<string>)
    ensures |r| == |a| + |b|
    decreases |a| + |b|
  {
    if a == [] then b
    else if b == [] then a
    else if a[0] == b[0] then [a[0], b[0]] + Merged(a[1..], b[1..])
    else if Less(a[0], b[0]) then [a[0]] + Merged(a[1..], b)
    else [b[0]] + Merged(a, b[1..])
  }

  /** merging keeps every entry of both lists, each as often as it occurs. */
  lemma {:induction false} MergedPermutation(a: seq<string>, b: seq<string>)
    ensures multiset(Merged(a, b)) == multiset(a) + multiset(b)
    decreases |a| + |b|
  {
    if a != [] && b != [] {
      assert a == [a[0]] + a[1..] && b == [b[0]] + b[1..];
      if a[0] == b[0] {
        MergedPermutation(a[1..], b[1..]);
      } else if Less(a[0], b[0]) {
        MergedPermutation(a[1..], b);
      } else {
        MergedPermutation(a, b[1..]);
      }
    }
  }

  /** A word no later than the first entry of a sorted list, put in front, keeps it sorted. */
  lemma SortedCons(x: string, s: seq<string>)
    requires Sorted(s) && (s == [] || LessOrEqual(x, s[0]))
    ensures Sorted([x] + s)
  {
    assert ([x] + s)[1..] == s;
  }

  /** merge's first entry is the first entry of one of the two lists. */
  lemma MergedHead(a: seq<string>, b: seq<string>)
    requires a != [] || b != []
    ensures (a != [] && Merged(a, b)[0] == a[0]) || (b != [] && Merged(a, b)[0] == b[0])
  {
  }

  /** After an equal front pair, the merge of the rests starts no earlier than the pair. */
  lemma PairThenRest(a: seq<string>, b: seq<string>)
    requires Sorted(a) && Sorted(b) && a != [] && b != [] && a[0] == b[0]
    requires Merged(a[1..], b[1..]) != []
    ensures LessOrEqual(b[0], Merged(a[1..], b[1..])[0])
  {
    MergedHead(a[1..], b[1..]);
    if |a| > 1 && Merged(a[1..], b[1..])[0] == a[1] {
      assert LessOrEqual(a[0], a[1]);
    } else {
      assert LessOrEqual(b[0], b[1]);
    }
  }

  /** Equal fronts: both go first, then the merge of the rests. */
  lemma MergedSortedPair(a: seq<string>, b: seq<string>)
    requires Sorted(a) && Sorted(b) && a != [] && b != [] && a[0] == b[0]
    requires Sorted(Merged(a[1..], b[1..]))
    ensures Sorted(Merged(a, b))
  {
    var y, rest := b[0], Merged(a[1..], b[1..]);
    assert Sorted([y] + ([y] + rest)) by {
      if rest != [] {
        PairThenRest(a, b);
      }
      SortedCons(y, rest);
      SortedCons(y, [y] + rest);
    }
    MergedPair(a, b);
  }

  /** The unfolding of merge at an equal front pair. */
  lemma MergedPair(a: seq<string>, b: seq<string>)
    requires a != [] && b != [] && a[0] == b[0]
    ensures Merged(a, b) == [b[0]] + ([b[0]] + Merged(a[1..], b[1..]))
  {
    var rest := Merged(a[1..], b[1..]);
    assert Merged(a, b) == [a[0], b[0]] + rest;
    assert [a[0], b[0]] == [b[0]] + [b[0]];
    Associative([b[0]], [b[0]], rest);
  }

  /** list1's front is smaller: it goes first. */
  lemma MergedSortedLeft(a: seq<string>, b: seq<string>)
    requires Sorted(a) && Sorted(b) && a != [] && b != [] && Less(a[0], b[0])
    requires Sorted(Merged(a[1..], b))
    ensures Sorted(Merged(a, b))
  {
    LessIrreflexive(a[0]);
    var rest := Merged(a[1..], b);
    assert Merged(a, b) == [a[0]] + rest;
    MergedHead(a[1..], b);
    SortedCons(a[0], rest);
  }

  /** list2's front is smaller: it goes first. */
  lemma MergedSortedRight(a: seq<string>, b: seq<string>)
    requires Sorted(a) && Sorted(b) && a != [] && b != [] && Less(b[0], a[0])
    requires Sorted(Merged(a, b[1..]))
    ensures Sorted(Merged(a, b))
  {
    LessTotal(a[0], b[0]);
    var rest := Merged(a, b[1..]);
    assert Merged(a, b) == [b[0]] + rest;
    MergedHead(a, b[1..]);
    SortedCons(b[0], rest);
  }

  /** merge of two sorted lists is sorted. */
  lemma {:induction false} MergedSorted(a: seq<string>, b: seq<string>)
    requires Sorted(a) && Sorted(b)
    ensures Sorted(Merged(a, b))
    decreases |a| + |b|
  {
    if a != [] && b != [] {
      LessTotal(a[0], b[0]);
      if a[0] == b[0] {
        MergedSorted(a[1..], b[1..]);
        MergedSortedPair(a, b);
      } else if Less(a[0], b[0]) {
        MergedSorted(a[1..], b);
        MergedSortedLeft(a, b);
      } else {
        MergedSorted(a, b[1..]);
        MergedSortedRight(a, b);
      }
    }
  }

  lemma Associative(a: seq<string>, b: seq<string>, c: seq<string>)
    ensures a + b + c == a + (b + c)
  {
  }

  /** merge: the copies taken from the front until one runs out, then what is left of both. */
  method Merge(list1: seq<string>, list2: seq<string>) returns (merged: seq<string>)
    ensures merged == Merged(list1, list2)
    ensures multiset(merged) == multiset(list1) + multiset(list2)
    ensures Sorted(list1) && Sorted(list2) ==> Sorted(merged)
  {
    if |list1| == 0 || |list2| == 0 {
      merged := list1 + list2;
      assert list1 + [] == list1;
    } else {
      merged := [];
      var l1Copy, l2Copy := list1, list2;
      while |l1Copy| > 0 && |l2Copy| > 0
        invariant merged + Merged(l1Copy, l2Copy) == Merged(list1, list2)
        decreases |l1Copy| + |l2Copy|
      {
        merged, l1Copy, l2Copy := TakeFront(merged, l1Copy, l2Copy);
      }
      assert Merged(l1Copy, l2Copy) == l1Copy + l2Copy;
      Associative(merged, l1Copy, l2Copy);
      merged := merged + l1Copy + l2Copy;
    }
    assert multiset(merged) == multiset(list1) + multiset(list2) by {
      MergedPermutation(list1, list2);
    }
    if Sorted(list1) && Sorted(list2) {
      assert Sorted(merged) by {
        assert merged == Merged(list1, list2);
        MergedSorted(list1, list2);
      }
    }
  }

  /** The body of merge's loop: the front entry, or the equal front pair, popped from the copies onto merged. */
  method TakeFront(merged: seq<string>, l1Copy: seq<string>, l2Copy: seq<string>)
      returns (merged': seq<string>, l1Copy': seq<string>, l2Copy': seq<string>)
    requires |l1Copy| > 0 && |l2Copy| > 0
    ensures merged' + Merged(l1Copy', l2Copy') == merged + Merged(l1Copy, l2Copy)
    ensures |l1Copy'| + |l2Copy'| < |l1Copy| + |l2Copy|
  {
    if l1Copy[0] == l2Copy[0] {
      merged' := merged + [l1Copy[0]];
      merged' := merged' + [l2Copy[0]];
      l1Copy', l2Copy' := l1Copy[1..], l2Copy[1..];
      Associative(merged, [l1Copy[0], l2Copy[0]], Merged(l1Copy', l2Copy'));
    } else if Less(l1Copy[0], l2Copy[0]) {
      merged' := merged + [l1Copy[0]];
      l1Copy', l2Copy' := l1Copy[1..], l2Copy;
      Associative(merged, [l1Copy[0]], Merged(l1Copy', l2Copy'));
    } else {
      merged' := merged + [l2Copy[0]];
      l1Copy', l2Copy' := l1Copy, l2Copy[1..];
      Associative(merged, [l2Copy[0]], Merged(l1Copy', l2Copy'));
    }
  }

  /**
   * merge_sort: a sorted list with the entries of its input; lists of fewer than two
   * entries come back as they are, longer ones are split at len / 2.
   */
  function MergeSort(list1: seq<string>): (r: seq<string>)
    ensures Sorted(r) && multiset(r) == multiset(list1)
    ensures |list1| <= 1 ==> r == list1
    decreases |list1|
  {
    var half := |list1| / 2;
    if |list1| == 0 || |list1| == 1 then list1
    else
      var left, right := MergeSort(list1[..half]), MergeSort(list1[half..]);
      assert list1 == list1[..half] + list1[half..];
      MergedSorted(left, right);
      MergedPermutation(left, right);
      Merged(left, right)
  }

  // ---------------------------------------------------------------- gen_all_strings

  /** The strings made by putting c into s at each position from 0 to |s|, the last being s + c. */
  function InsertAll(s: string, c: char): (r: seq<string>)
    ensures |r| == |s| + 1
  {
    seq(|s| + 1, p requires 0 <= p <= |s| => s[..p] + [c] + s[p..])
  }

  /** Each of them has the letters of s and one c more. */
  lemma InsertAllLetters(s: string, c: char, p: nat)
    requires p <= |s|
    ensures multiset(InsertAll(s, c)[p]) == multiset(s) + multiset{c}
  {
    assert s == s[..p] + s[p..];
  }

  lemma InsertAllNext(s: string, c: char, p: nat)
    requires p <= |s|
    ensures InsertAll(s, c)[..p + 1] == InsertAll(s, c)[..p] + [s[..p] + [c] + s[p..]]
  {
  }

  lemma InsertionsNext(strings: seq<string>, c: char, i: nat)
    requires i < |strings|
    ensures Insertions(strings[..i + 1], c) == Insertions(strings[..i], c) + InsertAll(strings[i], c)
  {
    assert strings[..i + 1][..i] == strings[..i];
  }

  /** The strings step 3 appends: those of InsertAll for each rest-string in turn. */
  function Insertions(strings: seq<string>, c: char): seq<string>
  {
    if strings == [] then [] else Insertions(strings[..|strings| - 1], c) + InsertAll(strings[|strings| - 1], c)
  }

  /** What gen_all_strings returns: the strings of the rest of the word, then the insertions of its first letter. */
  function AllStrings(word: string): seq<string>
    decreases |word|
  {
    if word == [] then [""]
    else
      var restStrings := AllStrings(word[1..]);
      restStrings + Insertions(restStrings, word[0])
  }

  /** gen_all_strings, step by step: recursion on the rest, then the two loops of step 3. */
  method GenAllStrings(word: string) returns (restStrings: seq<string>)
    ensures restStrings == AllStrings(word)
    decreases |word|
  {
    if |word| == 0 {
      return [""];
    }
    var first := word[0];
    var rest := word[1..];
    restStrings := GenAllStrings(rest);
    var strings := restStrings;
    for i := 0 to |strings|
      invariant restStrings == strings + Insertions(strings[..i], first)
    {
      restStrings := AppendInsertions(restStrings, strings[i], first);
      InsertionsNext(strings, first, i);
    }
    assert strings[..|strings|] == strings;
  }

  /** The body of step 3's loop: every way of putting first into s, appended in order of position. */
  method AppendInsertions(restStrings: seq<string>, s: string, first: char) returns (restStrings': seq<string>)
    ensures restStrings' == restStrings + InsertAll(s, first)
  {
    restStrings' := restStrings;
    for position := 0 to |s|
      invariant restStrings' == restStrings + InsertAll(s, first)[..position]
    {
      InsertAllNext(s, first, position);
      restStrings' := restStrings' + [s[..position] + [first] + s[position..]];
    }
    assert s + [first] == s[..|s|] + [first] + s[|s|..];
    InsertAllNext(s, first, |s|);
    restStrings' := restStrings' + [s + [first]];
  }

  /** Where a string step 3 appends comes from: a rest-string with c put in. */
  lemma {:induction false} InsertionSource(strings: seq<string>, c: char, s: string) returns (t: string)
    requires s in Insertions(strings, c)
    ensures t in strings && multiset(s) == multiset(t) + multiset{c}
    decreases |strings|
  {
    var init, last := strings[..|strings| - 1], strings[|strings| - 1];
    if s in Insertions(init, c) {
      t := InsertionSource(init, c, s);
      assert t in strings;
    } else {
      var p :| 0 <= p < |InsertAll(last, c)| && InsertAll(last, c)[p] == s;
      InsertAllLetters(last, c, p);
      t := last;
    }
  }

  /** Every rest-string t with c put in at position p is among the strings step 3 appends. */
  lemma {:induction false} InsertionReached(strings: seq<string>, c: char, i: nat, p: nat)
    requires i < |strings| && p <= |strings[i]|
    ensures strings[i][..p] + [c] + strings[i][p..] in Insertions(strings, c)
    decreases |strings|
  {
    var init, last := strings[..|strings| - 1], strings[|strings| - 1];
    if i < |init| {
      InsertionReached(init, c, i, p);
    } else {
      assert InsertAll(last, c)[p] == strings[i][..p] + [c] + strings[i][p..];
    }
  }

  lemma {:induction false} AllStringsSound(word: string, s: string)
    requires s in AllStrings(word)
    ensures multiset(s) <= multiset(word)
    decreases |word|
  {
    if word != [] {
      var rest := word[1..];
      assert word == [word[0]] + rest;
      if s in AllStrings(rest) {
        AllStringsSound(rest, s);
      } else {
        var t := InsertionSource(AllStrings(rest), word[0], s);
        AllStringsSound(rest, t);
      }
    }
  }

  /** The letters of word: its first one and those of the rest. */
  lemma FirstLetter(word: string)
    requires word != []
    ensures multiset(word) == multiset(word[1..]) + multiset{word[0]}
  {
    assert word == [word[0]] + word[1..];
  }

  /** Taking one c out of s leaves a string within the letters of rest. */
  lemma TakeLetter(s: string, p: nat, c: char, rest: string)
    requires p < |s| && s[p] == c && multiset(s) <= multiset(rest) + multiset{c}
    ensures multiset(s[..p] + s[p + 1..]) <= multiset(rest)
  {
    var t := s[..p] + s[p + 1..];
    assert s == s[..p] + [c] + s[p + 1..];
    assert multiset(s) == multiset(t) + multiset{c};
    forall x
      ensures multiset(t)[x] <= multiset(rest)[x]
    {
      assert multiset(s)[x] <= multiset(rest)[x] + multiset{c}[x];
    }
  }

  /** A string without c that lies within rest and c lies within rest. */
  lemma WithoutLetter(s: string, c: char, rest: string)
    requires c !in s && multiset(s) <= multiset(rest) + multiset{c}
    ensures multiset(s) <= multiset(rest)
  {
    forall x
      ensures multiset(s)[x] <= multiset(rest)[x]
    {
      if x == c {
        assert multiset(s)[x] == 0;
      }
    }
  }

  /** Putting word[0] back into a string of the rest, at any position, gives a string of word. */
  lemma PutLetterBack(word: string, t: string, p: nat)
    requires word != [] && t in AllStrings(word[1..]) && p <= |t|
    ensures t[..p] + [word[0]] + t[p..] in AllStrings(word)
  {
    var i :| 0 <= i < |AllStrings(word[1..])| && AllStrings(word[1..])[i] == t;
    InsertionReached(AllStrings(word[1..]), word[0], i, p);
  }

  /** Taking the letter at p out of s and putting it back at p gives s. */
  lemma PutBackWhereTaken(s: string, p: nat)
    requires p < |s|
    ensures var t := s[..p] + s[p + 1..]; t[..p] + [s[p]] + t[p..] == s
  {
    var t := s[..p] + s[p + 1..];
    assert t[..p] == s[..p] && t[p..] == s[p + 1..];
  }

  lemma {:induction false} AllStringsComplete(word: string, s: string)
    requires multiset(s) <= multiset(word)
    ensures s in AllStrings(word)
    decreases |word|
  {
    if word == [] {
      assert |multiset(s)| == 0;
    } else {
      var c, rest := word[0], word[1..];
      FirstLetter(word);
      if c in s {
        var p :| 0 <= p < |s| && s[p] == c;
        var t := s[..p] + s[p + 1..];
        TakeLetter(s, p, c, rest);
        AllStringsComplete(rest, t);
        PutLetterBack(word, t, p);
        PutBackWhereTaken(s, p);
      } else {
        WithoutLetter(s, c, rest);
        AllStringsComplete(rest, s);
      }
    }
  }

  /**
   * gen_all_strings yields exactly the strings made of some of the word's letters, each
   * letter used at most as often as the word has it; so none is longer than the word.
   */
  lemma AllStringsMeaning(word: string, s: string)
    ensures s in AllStrings(word) <==> multiset(s) <= multiset(word)
    ensures s in AllStrings(word) ==> |s| <= |word|
  {
    if s in AllStrings(word) {
      AllStringsSound(word, s);
      assert multiset(word) == multiset(s) + (multiset(word) - multiset(s));
    }
    if multiset(s) <= multiset(word) {
      AllStringsComplete(word, s);
    }
  }

  /** The strings of the rest of the word come first, unchanged: the list step 2 returns is extended in place. */
  lemma AllStringsExtendRest(word: string)
    requires word != []
    ensures AllStrings(word[1..]) <= AllStrings(word)
    ensures |AllStrings(word)| == |AllStrings(word[1..])| + |Insertions(AllStrings(word[1..]), word[0])|
  {
  }

  /** Each rest-string of length k contributes exactly k + 1 new strings. */
  lemma {:induction false} InsertionsCount(strings: seq<string>, c: char, s: string)
    ensures |Insertions(strings + [s], c)| == |Insertions(strings, c)| + |s| + 1
  {
    assert (strings + [s])[..|strings|] == strings;
  }
}
