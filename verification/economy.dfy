/**
 * The player record: money, health and score. Every change goes through one
 * of the mutators below, each of which touches exactly one counter.
 */
module Economy {
  datatype Player = Player(money: int, health: int, score: int)

  const StartingMoney: int := 650
  const StartingHealth: int := 100

  /** The player a new game starts with. */
  function NewPlayer(): Player {
    Player(StartingMoney, StartingHealth, 0)
  }

  function DeductMoney(p: Player, amount: int): (r: Player)
    ensures r.money == p.money - amount
    ensures r.(money := p.money) == p
  {
    p.(money := p.money - amount)
  }

  function AddMoney(p: Player, amount: int): (r: Player)
    ensures r.money == p.money + amount
    ensures r.(money := p.money) == p
  {
    p.(money := p.money + amount)
  }

  function AddHealth(p: Player, amount: int): (r: Player)
    ensures r.health == p.health + amount
    ensures r.(health := p.health) == p
  {
    p.(health := p.health + amount)
  }

  function TakeDamage(p: Player, amount: int): (r: Player)
    ensures r.health == p.health - amount
    ensures r.(health := p.health) == p
  {
    p.(health := p.health - amount)
  }

  function IncreaseScore(p: Player, amount: int): (r: Player)
    ensures r.score == p.score + amount
    ensures r.(score := p.score) == p
  {
    p.(score := p.score + amount)
  }

  predicate IsGameOver(p: Player) {
    p.health <= 0
  }
}
