/**
 * merge, list_zeroes and list_numbers of 01-2_2048/01-2_2048.py: one row or column of the
 * 2048 grid slid towards its start, each pair of equal neighbouring tiles combined once.
 * The methods keep the source's loops; Combine is the rule of the game stated on its own,
 * and the lemmas say what the slid line looks like.
 */
module MergeLine {

  // ---------------------------------------------------------------- reference functions

  /** The zero entries of a line, in order. */
  function Zeroes(line: seq<int>): seq<int>
  {
    if line == [] then [] else Zeroes(line[..|line| - 1]) + (if line[|line| - 1] == 0 then [0] else [])
  }

  /** The positive entries of a line, in order. */
  function Positives(line: seq<int>): seq<int>
  {
    if line == [] then [] else Positives(line[..|line| - 1]) + (if line[|line| - 1] > 0 then [line[|line| - 1]] else [])
  }

  /** n zeros. */
  function Zeros(n: nat): (z: seq<int>)
    ensures |z| == n && forall i :: 0 <= i < n ==> z[i] == 0
  {
    if n == 0 then [] else Zeros(n - 1) + [0]
  }

  /**
   * The rule of 2048 on the tiles of a line, from its start: the first two tiles combine
   * when they are equal, and the sum takes no further part; otherwise the first tile stays.
   */
  function Combine(tiles: seq<int>): (r: seq<int>)
    ensures |r| <= |tiles|
    decreases |tiles|
  {
    if |tiles| >= 2 && tiles[0] == tiles[1] then [tiles[0] + tiles[1]] + Combine(tiles[2..])
    else if tiles != [] then [tiles[0]] + Combine(tiles[1..])
    else []
  }

  /** What merge returns: the combined positive tiles, then as many zeros as the line had tiles and blanks left over. */
  function Slid(line: seq<int>): seq<int>
  {
    var tiles := Combine(Positives(line));
    tiles + Zeros(|Positives(line)| + |Zeroes(line)| - |tiles|)
  }

  function Sum(s: seq<int>): int
  {
    if s == [] then 0 else Sum(s[..|s| - 1]) + s[|s| - 1]
  }

  predicate NoEqualNeighbours(tiles: seq<int>)
  {
    forall i :: 0 <= i < |tiles| - 1 ==> tiles[i] != tiles[i + 1]
  }

  predicate NonNegative(line: seq<int>)
  {
    forall i :: 0 <= i < |line| ==> line[i] >= 0
  }

  // ---------------------------------------------------------------- the source's loops

  /** list_zeroes. */
  method ListZeroes(line: seq<int>) returns (zeroes: seq<int>)
    ensures zeroes == Zeroes(line)
  {
    zeroes := [];
    for i := 0 to |line|
      invariant zeroes == Zeroes(line[..i])
    {
      assert line[..i + 1][..i] == line[..i];
      if line[i] == 0 {
        zeroes := zeroes + [line[i]];
      }
    }
    assert line[..|line|] == line;
  }

  /** list_numbers. */
  method ListNumbers(line: seq<int>) returns (numbers: seq<int>)
    ensures numbers == Positives(line)
  {
    numbers := [];
    for i := 0 to |line|
      invariant numbers == Positives(line[..i])
    {
      assert line[..i + 1][..i] == line[..i];
      if line[i] > 0 {
        numbers := numbers + [line[i]];
      }
    }
    assert line[..|line|] == line;
  }

  /**
   * merge. merged_tiles ends either in a tile that may still combine with the next one, or
   * in the 0 placeholder put after a sum, which the next tile overwrites; zeroes gains one
   * 0 for every placeholder so overwritten.
   */
  method Merge(line: seq<int>) returns (merged: seq<int>)
    ensures merged == Slid(line)
  {
    var numbers := ListNumbers(line);
    var zeroes := ListZeroes(line);
    PositiveTiles(line);
    var mergedTiles: seq<int> := [];
    ghost var filled: nat := 0;
    for item := 0 to |numbers|
      invariant |mergedTiles| + filled == item
      invariant zeroes == Zeroes(line) + Zeros(filled)
      invariant MergedSoFar(numbers, item, mergedTiles)
    {
      var last := |mergedTiles| - 1;
      ghost var before := mergedTiles;
      if |mergedTiles| == 0 {
        mergedTiles := mergedTiles + [numbers[item]];
        assert MergedSoFar(numbers, item + 1, mergedTiles) by {
          FirstTile(numbers);
        }
      } else if mergedTiles[last] == 0 {
        mergedTiles := mergedTiles[last := mergedTiles[last] + numbers[item]];
        assert MergedSoFar(numbers, item + 1, mergedTiles) by {
          FillPlaceholder(numbers, item, before, mergedTiles);
        }
        assert zeroes + [0] == Zeroes(line) + Zeros(filled + 1) by {
          OneMoreZero(Zeroes(line), filled);
        }
        zeroes := zeroes + [0];
        filled := filled + 1;
      } else if mergedTiles[last] == numbers[item] {
        mergedTiles := mergedTiles[last := mergedTiles[last] + numbers[item]] + [0];
        assert MergedSoFar(numbers, item + 1, mergedTiles) by {
          CombinePair(numbers, item, before, mergedTiles);
        }
      } else {
        mergedTiles := mergedTiles + [numbers[item]];
        assert MergedSoFar(numbers, item + 1, mergedTiles) by {
          KeepTile(numbers, item, before, mergedTiles);
        }
      }
    }
    merged := mergedTiles + zeroes;
    MergedAll(line, mergedTiles, filled);
  }

  /**
   * After item tiles, merged_tiles followed by the combination of the tiles not yet settled
   * is the combination of all of them.
   */
  ghost predicate MergedSoFar(numbers: seq<int>, item: nat, mergedTiles: seq<int>)
    requires item <= |numbers|
  {
    if item == 0 then mergedTiles == []
    else
      && |mergedTiles| > 0
      && var last := |mergedTiles| - 1;
      && (mergedTiles[last] != 0 ==>
          mergedTiles[last] == numbers[item - 1] && Combine(numbers) == mergedTiles[..last] + Combine(numbers[item - 1..]))
      && (mergedTiles[last] == 0 ==> Combine(numbers) == mergedTiles[..last] + Combine(numbers[item..]))
  }

  lemma FirstTile(numbers: seq<int>)
    requires |numbers| > 0 && numbers[0] != 0
    ensures MergedSoFar(numbers, 1, [numbers[0]])
  {
    assert [numbers[0]][..0] == [] && numbers[0..] == numbers;
  }

  lemma FillPlaceholder(numbers: seq<int>, item: nat, before: seq<int>, after: seq<int>)
    requires 0 < item < |numbers| && numbers[item] > 0
    requires MergedSoFar(numbers, item, before) && before[|before| - 1] == 0
    requires after == before[|before| - 1 := numbers[item]]
    ensures MergedSoFar(numbers, item + 1, after)
  {
    assert after[..|after| - 1] == before[..|before| - 1];
  }

  lemma CombinePair(numbers: seq<int>, item: nat, before: seq<int>, after: seq<int>)
    requires 0 < item < |numbers|
    requires MergedSoFar(numbers, item, before) && before[|before| - 1] != 0
    requires before[|before| - 1] == numbers[item]
    requires after == before[|before| - 1 := before[|before| - 1] + numbers[item]] + [0]
    ensures MergedSoFar(numbers, item + 1, after)
  {
    CombineFront(numbers, item - 1);
    assert after[..|after| - 1] == before[..|before| - 1] + [numbers[item - 1] + numbers[item]];
  }

  lemma KeepTile(numbers: seq<int>, item: nat, before: seq<int>, after: seq<int>)
    requires 0 < item < |numbers| && numbers[item] > 0
    requires MergedSoFar(numbers, item, before) && before[|before| - 1] != 0
    requires before[|before| - 1] != numbers[item]
    requires after == before + [numbers[item]]
    ensures MergedSoFar(numbers, item + 1, after)
  {
    var settled := before[..|before| - 1];
    CombineFront(numbers, item - 1);
    assert Combine(numbers[item - 1..]) == [numbers[item - 1]] + Combine(numbers[item..]);
    assert before == settled + [numbers[item - 1]];
    assert after[..|after| - 1] == before;
    assert Combine(numbers) == before + Combine(numbers[item..]);
  }

  /** Once every tile is taken, merged_tiles and zeroes make the slid line. */
  lemma MergedAll(line: seq<int>, mergedTiles: seq<int>, filled: nat)
    requires MergedSoFar(Positives(line), |Positives(line)|, mergedTiles)
    requires |mergedTiles| + filled == |Positives(line)|
    ensures mergedTiles + (Zeroes(line) + Zeros(filled)) == Slid(line)
  {
    var numbers := Positives(line);
    var blanks := |Zeroes(line)| + filled;
    SettledTiles(numbers, mergedTiles);
    ZeroesAreZeros(line);
    ZerosAppend(|Zeroes(line)|, filled);
    if mergedTiles != Combine(numbers) {
      ZerosAppend(1, blanks);
      assert mergedTiles + (Zeroes(line) + Zeros(filled)) == Combine(numbers) + ([0] + Zeros(blanks));
    }
  }

  /** Once every tile is taken, merged_tiles is the combination, perhaps with a placeholder after it. */
  lemma SettledTiles(numbers: seq<int>, mergedTiles: seq<int>)
    requires MergedSoFar(numbers, |numbers|, mergedTiles)
    ensures mergedTiles == Combine(numbers) || mergedTiles == Combine(numbers) + [0]
  {
    if |numbers| > 0 {
      var last := |mergedTiles| - 1;
      assert numbers[|numbers|..] == [];
      assert mergedTiles == mergedTiles[..last] + [mergedTiles[last]];
      if mergedTiles[last] != 0 {
        CombineFront(numbers, |numbers| - 1);
      }
    }
  }

  lemma OneMoreZero(a: seq<int>, n: nat)
    ensures a + Zeros(n) + [0] == a + Zeros(n + 1)
  {
  }

  lemma {:induction false} ZerosAppend(a: nat, b: nat)
    ensures Zeros(a) + Zeros(b) == Zeros(a + b)
  {
    if b > 0 {
      ZerosAppend(a, b - 1);
      assert Zeros(a) + Zeros(b) == Zeros(a) + Zeros(b - 1) + [0];
    }
  }

  /** One step of Combine, from position i of the tiles. */
  lemma CombineFront(tiles: seq<int>, i: nat)
    requires i < |tiles|
    ensures i + 1 < |tiles| && tiles[i] == tiles[i + 1] ==>
      Combine(tiles[i..]) == [tiles[i] + tiles[i + 1]] + Combine(tiles[i + 2..])
    ensures !(i + 1 < |tiles| && tiles[i] == tiles[i + 1]) ==>
      Combine(tiles[i..]) == [tiles[i]] + Combine(tiles[i + 1..])
  {
    assert tiles[i..][1..] == tiles[i + 1..];
    if i + 1 < |tiles| {
      assert tiles[i..][2..] == tiles[i + 2..];
    }
  }

  // ---------------------------------------------------------------- what the lists mean

  lemma {:induction false} ZeroesAreZeros(line: seq<int>)
    ensures Zeroes(line) == Zeros(|Zeroes(line)|)
    ensures |Zeroes(line)| == multiset(line)[0]
  {
    if line != [] {
      var init := line[..|line| - 1];
      ZeroesAreZeros(init);
      assert line == init + [line[|line| - 1]];
    }
  }

  /** Every entry list_numbers keeps is a tile. */
  lemma {:induction false} PositiveTiles(line: seq<int>)
    ensures forall i :: 0 <= i < |Positives(line)| ==> Positives(line)[i] > 0
  {
    if line != [] {
      PositiveTiles(line[..|line| - 1]);
    }
  }

  /** list_numbers keeps exactly the positive entries: each as often as in the line, and no other. */
  lemma {:induction false} PositivesArePositive(line: seq<int>)
    ensures forall i :: 0 <= i < |Positives(line)| ==> Positives(line)[i] > 0
    ensures forall x :: x > 0 ==> multiset(Positives(line))[x] == multiset(line)[x]
  {
    if line != [] {
      var init := line[..|line| - 1];
      PositivesArePositive(init);
      assert line == init + [line[|line| - 1]];
    }
  }

  /** list_numbers keeps the order: the entries of a concatenation come out concatenated. */
  lemma {:induction false} PositivesAppend(a: seq<int>, b: seq<int>)
    ensures Positives(a + b) == Positives(a) + Positives(b)
    decreases |b|
  {
    if b == [] {
      assert a + b == a;
    } else {
      var init := b[..|b| - 1];
      PositivesAppend(a, init);
      assert (a + b)[..|a + b| - 1] == a + init;
    }
  }

  /** On a line without negative entries, every entry is a tile or a blank. */
  lemma {:induction false} TilesAndBlanks(line: seq<int>)
    requires NonNegative(line)
    ensures |Positives(line)| + |Zeroes(line)| == |line|
    ensures Sum(Positives(line)) == Sum(line)
  {
    if line != [] {
      var init, last := line[..|line| - 1], line[|line| - 1];
      TilesAndBlanks(init);
      SumAppend(Positives(init), if last > 0 then [last] else []);
      assert Sum([last]) == last;
    }
  }

  /** A line of tiles only is its own list of tiles and has no blanks. */
  lemma {:induction false} AllTiles(line: seq<int>)
    requires forall i :: 0 <= i < |line| ==> line[i] > 0
    ensures Positives(line) == line && Zeroes(line) == []
  {
    if line != [] {
      AllTiles(line[..|line| - 1]);
    }
  }

  // ---------------------------------------------------------------- what merge promises

  lemma {:induction false} SumAppend(a: seq<int>, b: seq<int>)
    ensures Sum(a + b) == Sum(a) + Sum(b)
    decreases |b|
  {
    if b == [] {
      assert a + b == a;
    } else {
      SumAppend(a, b[..|b| - 1]);
      assert (a + b)[..|a + b| - 1] == a + b[..|b| - 1];
    }
  }

  lemma {:induction false} SumZeros(n: nat)
    ensures Sum(Zeros(n)) == 0
  {
    if n > 0 {
      SumZeros(n - 1);
      assert Zeros(n)[..n - 1] == Zeros(n - 1);
    }
  }

  /** Combining tiles keeps their total. */
  lemma {:induction false} CombineKeepsSum(tiles: seq<int>)
    ensures Sum(Combine(tiles)) == Sum(tiles)
    decreases |tiles|
  {
    if |tiles| >= 2 && tiles[0] == tiles[1] {
      CombineKeepsSum(tiles[2..]);
      SumAppend([tiles[0] + tiles[1]], Combine(tiles[2..]));
      SumAppend([tiles[0], tiles[1]], tiles[2..]);
      assert tiles == [tiles[0], tiles[1]] + tiles[2..];
    } else if tiles != [] {
      CombineKeepsSum(tiles[1..]);
      SumAppend([tiles[0]], Combine(tiles[1..]));
      SumAppend([tiles[0]], tiles[1..]);
      assert tiles == [tiles[0]] + tiles[1..];
    }
  }

  /** merge keeps the length of a line of tiles and blanks. */
  lemma SlidLength(line: seq<int>)
    requires NonNegative(line)
    ensures |Slid(line)| == |line|
  {
    TilesAndBlanks(line);
  }

  /** merge keeps the sum of a line of tiles and blanks. */
  lemma SlidSum(line: seq<int>)
    requires NonNegative(line)
    ensures Sum(Slid(line)) == Sum(line)
  {
    var tiles := Combine(Positives(line));
    var blanks := |Positives(line)| + |Zeroes(line)| - |tiles|;
    assert Slid(line) == tiles + Zeros(blanks);
    assert Sum(tiles) == Sum(line) by {
      TilesAndBlanks(line);
      CombineKeepsSum(Positives(line));
    }
    assert Sum(Zeros(blanks)) == 0 by {
      SumZeros(blanks);
    }
    SumAppend(tiles, Zeros(blanks));
  }

  /** merge puts every tile before every blank: once a 0 appears, only 0s follow, and the rest are tiles. */
  lemma SlidTilesFirst(line: seq<int>)
    ensures var r := Slid(line);
      && (forall i, j :: 0 <= i < j < |r| && r[i] == 0 ==> r[j] == 0)
      && (forall i :: 0 <= i < |r| ==> r[i] >= 0)
  {
    PositivesArePositive(line);
    CombinePositive(Positives(line));
  }

  /** Combining tiles makes tiles. */
  lemma {:induction false} CombinePositive(tiles: seq<int>)
    requires forall i :: 0 <= i < |tiles| ==> tiles[i] > 0
    ensures forall i :: 0 <= i < |Combine(tiles)| ==> Combine(tiles)[i] > 0
    decreases |tiles|
  {
    if |tiles| >= 2 && tiles[0] == tiles[1] {
      CombinePositive(tiles[2..]);
    } else if tiles != [] {
      CombinePositive(tiles[1..]);
    }
  }

  /** Tiles no two neighbours of which are equal are only moved to the start. */
  lemma {:induction false} CombineDistinctNeighbours(tiles: seq<int>)
    requires NoEqualNeighbours(tiles)
    ensures Combine(tiles) == tiles
    decreases |tiles|
  {
    if tiles != [] {
      CombineDistinctNeighbours(tiles[1..]);
    }
  }

  /** So merge only compacts a line whose successive tiles differ: its tiles, then its blanks. */
  lemma SlidCompacts(line: seq<int>)
    requires NoEqualNeighbours(Positives(line))
    ensures Slid(line) == Positives(line) + Zeroes(line)
  {
    CombineDistinctNeighbours(Positives(line));
    ZeroesAreZeros(line);
  }

  /** A sum is never combined again in the same merge: four equal tiles make two sums, as four 2s make two 4s. */
  lemma FourEqualTiles(x: int)
    requires x > 0
    ensures Slid([x, x, x, x]) == [2 * x, 2 * x, 0, 0]
  {
    var line := [x, x, x, x];
    assert Positives(line) == line && Zeroes(line) == [] by {
      AllTiles(line);
    }
    assert Combine(line) == [2 * x, 2 * x] by {
      assert line[2..] == [x, x];
      assert [x, x][2..] == [];
    }
    assert Zeros(2) == [0, 0];
  }

  /** A sum equal to the next tile stays beside it: x, x, 2x makes 2x, 2x. */
  lemma SumThenEqualTile(x: int)
    requires x > 0
    ensures Slid([x, x, 2 * x]) == [2 * x, 2 * x, 0]
  {
    var line := [x, x, 2 * x];
    assert Positives(line) == line && Zeroes(line) == [] by {
      AllTiles(line);
    }
    assert Combine(line) == [2 * x, 2 * x] by {
      assert line[2..] == [2 * x];
      assert [2 * x][1..] == [];
    }
    assert Zeros(1) == [0];
  }
}
