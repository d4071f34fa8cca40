/** The token bucket emulator with its two queues and its server list as pointer rings. */
module TokenBuckets {
  import opened Basics
  import opened Ring
  import opened TokenBucketRuns

  /** The oldest packet of one queue goes to the front of another. */
  method Shift(from: My402List, to: My402List)
    requires from.Valid() && to.Valid() && from.Repr() !! to.Repr() && from.Contents() != []
    modifies from.Repr(), to.Repr()
    ensures from.Valid() && to.Valid() && from.Repr() <= old(from.Repr()) && fresh(to.Repr() - old(to.Repr()))
    ensures from.Contents() == ButOldest(old(from.Contents()))
    ensures to.Contents() == [Oldest(old(from.Contents()))] + old(to.Contents())
  {
    var last := from.Last();
    from.Unlink(last, |from.ring| - 1);
    to.Prepend(last.obj);
  }

  /** With enough tokens, they are taken and the packet goes on. */
  lemma ReleaseIs(p: Input, s: State)
    requires s.q1 != [] && s.token >= Need(p, Oldest(s.q1))
    ensures Release(p, s) == Forwarded(s.(token := s.token - Need(p, Oldest(s.q1))))
  {
  }

  class TokenBucket {
    const input: Input
    const q1: My402List
    const q2: My402List
    const server: My402List
    var arrived: nat            // arrive_num_s, and the loop index of the arrival thread
    var packetDrop: nat
    var bottle: Option<nat>     // server_bottle
    var token: int              // token_g
    var produced: nat
    var tokenDrop: nat
    var b: bool
    var tokenDone: bool
    var halted: bool

    ghost predicate Valid()
      reads this, q1, q2, server, q1.ring, q2.ring, server.ring
    {
      && q1.Valid() && q2.Valid() && server.Valid()
      && q1.Repr() !! q2.Repr() && q1.Repr() !! server.Repr() && q2.Repr() !! server.Repr()
      && this !in q1.Repr() && this !in q2.Repr() && this !in server.Repr()
    }

    ghost function View(): State
      reads this, q1, q2, server, q1.ring, q2.ring, server.ring
      requires Valid()
    {
      State(arrived, packetDrop, q1.Contents(), q2.Contents(), bottle, server.Contents(),
            token, produced, tokenDrop, b, tokenDone, halted)
    }

    constructor (input: Input)
      ensures Valid() && View() == INITIAL && this.input == input
    {
      this.input := input;
      q1 := new My402List();
      q2 := new My402List();
      server := new My402List();
      arrived, packetDrop, bottle, token, produced, tokenDrop := 0, 0, None, 0, 0, 0;
      b, tokenDone, halted := false, false, false;
    }

    /** The oldest packet of Q1 goes to Q2 */
    method Forward()
      requires Valid() && q1.Contents() != []
      modifies this`b, q1.Repr(), q2.Repr()
      ensures Valid() && View() == Forwarded(old(View()))
      ensures fresh(q1.Repr() - old(q1.Repr())) && fresh(q2.Repr() - old(q2.Repr()))
    {
      Shift(q1, q2);
      b := true;
    }

    /** The tokens the oldest packet of Q1 needs */
    method OldestNeeds() returns (r: Option<nat>)
      requires Valid()
      ensures r == if q1.Contents() == [] then None else Some(Need(input, Oldest(q1.Contents())))
    {
      var last := q1.Last();
      if last == null {
        return None;
      }
      return Some(Need(input, last.obj));
    }

    /** The tokens are taken */
    method Pay(n: nat)
      requires Valid()
      modifies this`token
      ensures Valid() && View() == old(View()).(token := old(View()).token - n)
    {
      token := token - n;
    }

    /** The block both the arrival and the token thread run while they hold the mutex */
    method ReleaseOne()
      requires Valid()
      modifies this`token, this`b, q1.Repr(), q2.Repr()
      ensures Valid() && View() == Release(input, old(View()))
      ensures fresh(q1.Repr() - old(q1.Repr())) && fresh(q2.Repr() - old(q2.Repr()))
    {
      var needed := OldestNeeds();
      if needed.Some? && token >= needed.value {
        ReleaseIs(input, View());
        Pay(needed.value);
        Forward();
      }
    }

    /** A packet enters Q1 */
    method Enter()
      requires Valid()
      modifies this`arrived, q1.Repr()
      ensures Valid() && View() == Joined(old(View())) && fresh(q1.Repr() - old(q1.Repr()))
    {
      q1.Prepend(arrived);
      arrived := arrived + 1;
    }

    /** One turn of the arrival thread */
    method ArrivalTurn()
      requires Valid() && arrived < |input.need|
      modifies this, q1.Repr(), q2.Repr()
      ensures Valid() && View() == Arrive(input, old(View()))
    {
      if Need(input, arrived) > input.B {
        packetDrop := packetDrop + 1;
        arrived := arrived + 1;
        return;
      }
      Enter();
      ReleaseOne();
    }

    /** A token arrives, or is dropped at a full bucket */
    method Produce()
      requires Valid()
      modifies this`token, this`tokenDrop, this`produced
      ensures Valid() && View() == Produced(input, old(View()))
    {
      if token < input.B {
        token := token + 1;
      } else {
        tokenDrop := tokenDrop + 1;
      }
      produced := produced + 1;
    }

    /** The token thread ends when Q1 is empty and all packets have arrived */
    method MarkDone()
      requires Valid()
      modifies this`tokenDone
      ensures Valid() && View() == Marked(input, old(View()))
    {
      var empty := q1.Empty();
      tokenDone := empty && arrived == |input.need|;
    }

    /** One turn of the token thread */
    method TokenTurn()
      requires Valid()
      modifies this, q1.Repr(), q2.Repr()
      ensures Valid() && View() == Tick(input, old(View()))
    {
      Produce();
      ReleaseOne();
      MarkDone();
    }

    /** The shutdown test of the server */
    method ShutdownTest()
      requires Valid()
      modifies this`halted
      ensures Valid() && View() == Test(input, old(View()))
    {
      var empty1 := q1.Empty();
      var empty2 := q2.Empty();
      halted := empty1 && empty2 && arrived == |input.need|;
    }

    /** The server's turn up to the service */
    method ServerBeginTurn()
      requires Valid() && bottle.None?
      modifies this`bottle, this`halted, q2.Repr()
      ensures Valid() && View() == Begin(input, old(View()))
    {
      var last := q2.Last();
      if last != null {
        bottle := Some(last.obj);
        q2.Unlink(last, |q2.ring| - 1);
      } else {
        ShutdownTest();
      }
    }

    /** The server's turn after the service */
    method ServerFinishTurn()
      requires Valid() && bottle.Some?
      modifies this`bottle, this`halted, server.Repr()
      ensures Valid() && View() == Finish(input, old(View()))
    {
      server.Prepend(bottle.value);
      bottle := None;
      ShutdownTest();
    }
  }
}
