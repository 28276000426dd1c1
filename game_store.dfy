/** The fruit slicer's game-state store: the score, the live fruits, the
    fruits just sliced (kept for their animation), the seconds left and the
    game-over flag. Timer and timeout callbacks are methods the caller
    invokes: `Tick` each second, `Expire` three seconds after a fruit was
    added, `ClearSliced` a second after the sliced list last changed. */
module GameStore {
  import opened Common
  import opened FruitUtils

  const RoundSeconds: int := 60

  /** The fruits left once those with `id`, and any already sliced, are
      dropped; the order of the rest is kept. */
  function Remaining(fruits: seq<Fruit>, id: string): (r: seq<Fruit>)
    ensures |r| <= |fruits|
    ensures forall f :: f in r <==> f in fruits && f.id != id && !f.sliced
  {
    if fruits == [] then []
    else
      var rest := Remaining(fruits[1..], id);
      assert forall f :: f in fruits <==> f == fruits[0] || f in fruits[1..];
      if fruits[0].id != id && !fruits[0].sliced then [fruits[0]] + rest else rest
  }

  /** `filter` keeps the order: what survives is a subsequence. */
  predicate Subsequence(a: seq<Fruit>, b: seq<Fruit>)
    decreases |b|
  {
    a == [] || (b != [] && ((a[0] == b[0] && Subsequence(a[1..], b[1..])) || Subsequence(a, b[1..])))
  }

  lemma {:induction false} RemainingSubsequence(fruits: seq<Fruit>, id: string)
    ensures Subsequence(Remaining(fruits, id), fruits)
  {
    if fruits != [] {
      RemainingSubsequence(fruits[1..], id);
    }
  }

  /** The first fruit with this id. */
  function FindFruit(fruits: seq<Fruit>, id: string): (r: Option<Fruit>)
    ensures r.Some? ==> r.value in fruits && r.value.id == id
    ensures r.None? <==> forall i :: 0 <= i < |fruits| ==> fruits[i].id != id
  {
    if fruits == [] then None
    else if fruits[0].id == id then Some(fruits[0])
    else FindFruit(fruits[1..], id)
  }

  /** The store's state as a value. */
  datatype Store = Store(score: int, gameOver: bool, fruits: seq<Fruit>, slicedFruits: seq<Fruit>, timeLeft: int)

  /** Live fruits are never flagged sliced (only the copies in the sliced
      list are); the clock stays within the round and reads zero exactly
      when the game is over. */
  predicate StoreOk(s: Store)
  {
    (forall i :: 0 <= i < |s.fruits| ==> !s.fruits[i].sliced) &&
    0 <= s.timeLeft <= RoundSeconds && (s.gameOver <==> s.timeLeft == 0)
  }

  /** `sliceFruit(id)`. */
  function AfterSlice(s: Store, id: string): Store
  {
    match FindFruit(s.fruits, id)
    case None => s
    case Some(f) =>
      if f.sliced then s
      else s.(slicedFruits := s.slicedFruits + [f.(sliced := true)],
              score := s.score + f.points,
              fruits := Remaining(s.fruits, id))
  }

  /** A first slice of a live fruit scores its points once, keeps a sliced
      copy, and removes exactly that id from the live fruits; an unknown id
      changes nothing. */
  lemma SliceEffect(s: Store, id: string)
    requires StoreOk(s)
    ensures StoreOk(AfterSlice(s, id))
    ensures FindFruit(s.fruits, id).None? ==> AfterSlice(s, id) == s
    ensures var r := AfterSlice(s, id);
      FindFruit(s.fruits, id).Some? ==>
        var f := FindFruit(s.fruits, id).value;
        r.score == s.score + f.points && r.slicedFruits == s.slicedFruits + [f.(sliced := true)] &&
        (forall g :: g in r.fruits <==> g in s.fruits && g.id != id) &&
        r.timeLeft == s.timeLeft && r.gameOver == s.gameOver
  {
  }

  /** Dropping another id leaves the first fruit with this id where it was. */
  lemma {:induction false} RemainingKeepsOtherIds(fruits: seq<Fruit>, other: string, id: string)
    requires other != id
    requires forall i :: 0 <= i < |fruits| ==> !fruits[i].sliced
    ensures FindFruit(Remaining(fruits, other), id) == FindFruit(fruits, id)
  {
    if fruits != [] {
      RemainingKeepsOtherIds(fruits[1..], other, id);
      if fruits[0].id != other {
        assert ([fruits[0]] + Remaining(fruits[1..], other))[1..] == Remaining(fruits[1..], other);
      }
    }
  }

  /** The points a list of fruits is worth. */
  function Points(fruits: seq<Fruit>): int
  {
    if fruits == [] then 0 else fruits[0].points + Points(fruits[1..])
  }

  /** Slicing the same id twice is slicing it once. */
  lemma SliceIdempotent(s: Store, id: string)
    requires StoreOk(s)
    ensures AfterSlice(AfterSlice(s, id), id) == AfterSlice(s, id)
  {
    var r := AfterSlice(s, id);
    if FindFruit(s.fruits, id).Some? {
      assert forall i :: 0 <= i < |r.fruits| ==> r.fruits[i] in r.fruits;
    }
  }

  /** `addFruit`: the new fruit goes last. */
  function AfterAdd(s: Store, f: Fruit): Store
  {
    s.(fruits := s.fruits + [f])
  }

  /** The expiry timeout: the fruits with that id are dropped. */
  function WithoutId(fruits: seq<Fruit>, id: string): (r: seq<Fruit>)
    ensures forall f :: f in r <==> f in fruits && f.id != id
    ensures |r| <= |fruits|
  {
    if fruits == [] then []
    else
      var rest := WithoutId(fruits[1..], id);
      assert forall f :: f in fruits <==> f == fruits[0] || f in fruits[1..];
      if fruits[0].id != id then [fruits[0]] + rest else rest
  }

  /** Once sliced, a fruit's expiry finds nothing left to remove. */
  lemma {:induction false} ExpireAfterSlice(fruits: seq<Fruit>, id: string)
    requires forall i :: 0 <= i < |fruits| ==> fruits[i].id != id
    ensures WithoutId(fruits, id) == fruits
  {
    if fruits != [] {
      ExpireAfterSlice(fruits[1..], id);
    }
  }

  /** On live (unsliced) fruits, the slice's filter is the expiry's. */
  lemma {:induction false} RemainingIsWithoutId(fruits: seq<Fruit>, id: string)
    requires forall i :: 0 <= i < |fruits| ==> !fruits[i].sliced
    ensures Remaining(fruits, id) == WithoutId(fruits, id)
  {
    if fruits != [] {
      RemainingIsWithoutId(fruits[1..], id);
    }
  }

  /** The one-second timer, installed only while the game is running. */
  function AfterTick(s: Store): Store
  {
    if s.gameOver then s
    else if s.timeLeft <= 1 then s.(timeLeft := 0, gameOver := true)
    else s.(timeLeft := s.timeLeft - 1)
  }

  /** Each tick takes one second off, stops at zero and ends the game
      there; the clock never goes negative. */
  lemma TickCountsDown(s: Store)
    requires StoreOk(s)
    ensures StoreOk(AfterTick(s))
    ensures !s.gameOver ==> AfterTick(s).timeLeft == s.timeLeft - 1
    ensures !s.gameOver ==> (AfterTick(s).gameOver <==> s.timeLeft == 1)
    ensures AfterTick(s).fruits == s.fruits && AfterTick(s).score == s.score
  {
  }

  /** As many ticks as there are seconds left end the round (sixty after
      a reset). */
  lemma {:induction false} TicksEndRound(s: Store, n: nat)
    requires StoreOk(s) && n >= s.timeLeft
    ensures Ticks(s, n).gameOver && Ticks(s, n).timeLeft == 0
    decreases n
  {
    if n > 0 {
      TickCountsDown(s);
      TicksEndRound(AfterTick(s), n - 1);
    }
  }

  function Ticks(s: Store, n: nat): Store
    decreases n
  {
    if n == 0 then s else Ticks(AfterTick(s), n - 1)
  }

  /** `Math.max(600, 1200 - Math.floor(score / 10) * 50)` milliseconds
      (the division by a positive constant floors, as `Math.floor` does). */
  function SpawnInterval(score: int): int
  {
    Max(600, 1200 - (score / 10) * 50)
  }

  /** From 1.2 s down to 0.6 s, never slower as the score grows. */
  lemma SpawnIntervalBounds(score: int, later: int)
    requires 0 <= score <= later
    ensures 600 <= SpawnInterval(score) <= 1200
    ensures SpawnInterval(later) <= SpawnInterval(score)
    ensures score >= 120 ==> SpawnInterval(score) == 600
  {
    assert score / 10 <= later / 10;
  }

  class GameProvider {
    var score: int
    var gameOver: bool
    var fruits: seq<Fruit>
    var slicedFruits: seq<Fruit>
    var timeLeft: int

    function State(): Store
      reads this
    {
      Store(score, gameOver, fruits, slicedFruits, timeLeft)
    }

    predicate Valid()
      reads this
    {
      StoreOk(State())
    }

    /** The initial state: no score, no fruits, sixty seconds. */
    constructor()
      ensures Valid() && State() == Store(0, false, [], [], RoundSeconds)
    {
      score := 0;
      gameOver := false;
      fruits := [];
      slicedFruits := [];
      timeLeft := RoundSeconds;
    }

    method AddScore(points: int)
      modifies this
      ensures State() == old(State()).(score := old(score) + points)
    {
      score := score + points;
    }

    /** `addFruit` with the fruit `createFruit` made. */
    method AddFruit(f: Fruit)
      requires Valid() && !f.sliced
      modifies this
      ensures State() == AfterAdd(old(State()), f)
      ensures Valid()
    {
      fruits := fruits + [f];
    }

    /** The spawn interval's callback: a fruit only while the game runs. */
    method Spawn(f: Fruit)
      requires Valid() && !f.sliced
      modifies this
      ensures State() == if old(gameOver) then old(State()) else AfterAdd(old(State()), f)
      ensures Valid()
    {
      if !gameOver {
        AddFruit(f);
      }
    }

    /** The timeout three seconds after a fruit was added. */
    method Expire(id: string)
      requires Valid()
      modifies this
      ensures State() == old(State()).(fruits := WithoutId(old(fruits), id))
      ensures Valid()
    {
      fruits := WithoutId(fruits, id);
    }

    method SliceFruit(id: string)
      requires Valid()
      modifies this
      ensures State() == AfterSlice(old(State()), id)
      ensures Valid()
    {
      SliceEffect(State(), id);
      var found := FindFruit(fruits, id);
      if found.None? || found.value.sliced {
        return;
      }
      var f := found.value;
      slicedFruits := slicedFruits + [f.(sliced := true)];
      AddScore(f.points);
      fruits := Remaining(fruits, id);
    }

    method ResetGame()
      modifies this
      ensures State() == Store(0, false, [], [], RoundSeconds)
      ensures Valid()
    {
      score := 0;
      gameOver := false;
      fruits := [];
      slicedFruits := [];
      timeLeft := RoundSeconds;
    }

    method Tick()
      requires Valid()
      modifies this
      ensures State() == AfterTick(old(State()))
      ensures Valid()
    {
      TickCountsDown(State());
      if gameOver {
        return;
      }
      if timeLeft <= 1 {
        gameOver := true;
        timeLeft := 0;
      } else {
        timeLeft := timeLeft - 1;
      }
    }

    /** The timeout a second after the sliced list changed. */
    method ClearSliced()
      requires Valid()
      modifies this
      ensures State() == old(State()).(slicedFruits := [])
      ensures Valid()
    {
      slicedFruits := [];
    }
  }
}
