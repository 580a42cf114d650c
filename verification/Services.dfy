/** The services behind one instance, call by call. A call that fails may have
    been carried out all the same, its answer lost. */
module Services {
  import opened Prelude

  datatype Call = Done | Lost | NotDone
  {
    /** Whether the other side carried it out. */
    predicate Applied() { !NotDone? }
  }

  datatype LogoutAll = LoggedOut | NoSuchUser | NoAnswer(applied: bool)

  function Members(index: map<Text, set<Text>>, sub: Text): set<Text> {
    if sub in index then index[sub] else {}
  }

  function WithMember(index: map<Text, set<Text>>, sub: Text, key: Text): map<Text, set<Text>> {
    index[sub := Members(index, sub) + {key}]
  }

  function WithoutMember(index: map<Text, set<Text>>, sub: Text, key: Text): map<Text, set<Text>> {
    if sub !in index then index
    else if index[sub] - {key} == {} then index - {sub}
    else index[sub := index[sub] - {key}]
  }

  class Keycloak {
    var signedOn: set<Text>

    constructor (signedOn: set<Text>)
      ensures this.signedOn == signedOn
    {
      this.signedOn := signedOn;
    }

    method SignOutEverywhere(sub: Text, answer: LogoutAll)
      modifies this
      ensures signedOn == SignedOn(old(signedOn), sub, answer)
    {
      if answer.LoggedOut? || (answer.NoAnswer? && answer.applied) {
        signedOn := signedOn - {sub};
      }
    }
  }

  function SignedOn(signedOn: set<Text>, sub: Text, answer: LogoutAll): set<Text> {
    match answer
    case LoggedOut => signedOn - {sub}
    case NoSuchUser => signedOn
    case NoAnswer(applied) => if applied then signedOn - {sub} else signedOn
  }

  class Redis {
    var sessions: set<Text>
    var index: map<Text, set<Text>>
    var published: seq<Text>

    constructor (sessions: set<Text>, index: map<Text, set<Text>>)
      ensures this.sessions == sessions && this.index == index && published == []
    {
      this.sessions, this.index, published := sessions, index, [];
    }

    /** SADD, then EXPIRE; the deadline itself is the fleet's matter. */
    method Record(sub: Text, key: Text, add: Call, expire: Call) returns (ok: bool)
      modifies this`index
      ensures index == if add.Applied() then WithMember(old(index), sub, key) else old(index)
      ensures ok == (add.Done? && expire.Done?)
    {
      if add.Applied() {
        index := index[sub := (if sub in index then index[sub] else {}) + {key}];
      }
      return add.Done? && expire.Done?;
    }

    method Sessions(sub: Text, call: Call) returns (r: Option<set<Text>>)
      ensures r == if call.Done? then Some(Members(index, sub)) else None
    {
      return if call.Done? then Some(if sub in index then index[sub] else {}) else None;
    }

    /** An empty list is not a DEL: Redis refuses one with no keys. */
    method DropSessions(keys: set<Text>, call: Call) returns (ok: bool)
      modifies this`sessions
      ensures sessions == if call.Applied() then old(sessions) - keys else old(sessions)
      ensures ok == (keys == {} || call.Done?)
    {
      if keys == {} { return true; }
      if call.Applied() { sessions := sessions - keys; }
      return call.Done?;
    }

    method PublishInvalidation(sub: Text, call: Call) returns (ok: bool)
      modifies this`published
      ensures published == if call.Applied() then old(published) + [sub] else old(published)
      ensures ok == call.Done?
    {
      if call.Applied() { published := published + [sub]; }
      return call.Done?;
    }

    method Forget(sub: Text, call: Call) returns (ok: bool)
      modifies this`index
      ensures index == if call.Applied() then old(index) - {sub} else old(index)
      ensures ok == call.Done?
    {
      if call.Applied() { index := index - {sub}; }
      return call.Done?;
    }

    method ForgetSession(sub: Text, key: Text, call: Call) returns (ok: bool)
      modifies this`index
      ensures index == if call.Applied() then WithoutMember(old(index), sub, key) else old(index)
      ensures ok == call.Done?
    {
      if call.Applied() && sub in index {
        var left := index[sub] - {key};
        index := if left == {} then index - {sub} else index[sub := left];
      }
      return call.Done?;
    }
  }
}
