/** The Neo4j database the loader writes to, reduced to its labelled nodes and typed edges.
    Node identity is the `id` property (unique per label); a node's other properties are kept
    only where they differ from its id. */
module GraphStore {

  /** A Character node's properties besides its id. */
  datatype Character = Character(name: string, group: string, size: int)

  /** A directed edge between two node ids. */
  datatype Edge = Edge(source: string, target: string)

  /** The whole database as a value. Hero nodes have name = id and Comic nodes title = id,
      so an id set describes them completely. */
  datatype GraphState = GraphState(
    characters: map<string, Character>,
    heroes: set<string>,
    comics: set<string>,
    partnersWith: set<Edge>,
    knows: set<Edge>,
    appearsIn: set<Edge>)

  const EmptyGraph := GraphState(map[], {}, {}, {}, {}, {})

  /** Every edge joins two existing nodes of the labels its type connects. */
  ghost predicate WellFormed(g: GraphState) {
    && (forall e :: e in g.partnersWith ==> e.source in g.characters && e.target in g.characters)
    && (forall e :: e in g.knows ==> e.source in g.heroes && e.target in g.heroes)
    && (forall e :: e in g.appearsIn ==> e.source in g.heroes && e.target in g.comics)
  }

  /** `h` holds at least the nodes and edges of `g`. */
  ghost predicate Grows(g: GraphState, h: GraphState) {
    && g.characters.Keys <= h.characters.Keys
    && g.heroes <= h.heroes
    && g.comics <= h.comics
    && g.partnersWith <= h.partnersWith
    && g.knows <= h.knows
    && g.appearsIn <= h.appearsIn
  }

  /** The database, updated in place by the loader's MERGE statements. */
  class Graph {
    var characters: map<string, Character>
    var heroes: set<string>
    var comics: set<string>
    var partnersWith: set<Edge>
    var knows: set<Edge>
    var appearsIn: set<Edge>

    function State(): GraphState
      reads this
    {
      GraphState(characters, heroes, comics, partnersWith, knows, appearsIn)
    }

    ghost predicate Valid()
      reads this
    {
      WellFormed(State())
    }

    constructor ()
      ensures Valid() && State() == EmptyGraph
    {
      characters, heroes, comics := map[], {}, {};
      partnersWith, knows, appearsIn := {}, {}, {};
    }

    /** MATCH (n) DETACH DELETE n */
    method Clear()
      modifies this
      ensures Valid() && State() == EmptyGraph
    {
      characters, heroes, comics := map[], {}, {};
      partnersWith, knows, appearsIn := {}, {}, {};
    }

    /** MERGE (c:Character {id}) SET c.name = id, c.group = group, c.size = size */
    method MergeCharacter(id: string, group: string, size: int)
      requires Valid()
      modifies this
      ensures Valid()
      ensures State() == old(State()).(characters := old(characters)[id := Character(id, group, size)])
    {
      characters := characters[id := Character(id, group, size)];
    }

    /** MERGE (h:Hero {id}) SET h.name = id */
    method MergeHero(id: string)
      requires Valid()
      modifies this
      ensures Valid()
      ensures State() == old(State()).(heroes := old(heroes) + {id})
    {
      heroes := heroes + {id};
    }

    /** MERGE (c:Comic {id}) SET c.title = id */
    method MergeComic(id: string)
      requires Valid()
      modifies this
      ensures Valid()
      ensures State() == old(State()).(comics := old(comics) + {id})
    {
      comics := comics + {id};
    }

    /** MATCH (a:Character {id: source}) MATCH (b:Character {id: target}) MERGE (a)-[:PARTNERS_WITH]->(b):
        the edge is added only when both characters exist. */
    method MergePartnersWith(source: string, target: string)
      requires Valid()
      modifies this
      ensures Valid()
      ensures State() == old(State()).(partnersWith :=
        if source in old(characters) && target in old(characters)
        then old(partnersWith) + {Edge(source, target)} else old(partnersWith))
    {
      if source in characters && target in characters {
        partnersWith := partnersWith + {Edge(source, target)};
      }
    }

    /** MATCH (h1:Hero {id: hero1}) MATCH (h2:Hero {id: hero2}) MERGE (h1)-[:KNOWS]->(h2) */
    method MergeKnows(hero1: string, hero2: string)
      requires Valid()
      modifies this
      ensures Valid()
      ensures State() == old(State()).(knows :=
        if hero1 in old(heroes) && hero2 in old(heroes)
        then old(knows) + {Edge(hero1, hero2)} else old(knows))
    {
      if hero1 in heroes && hero2 in heroes {
        knows := knows + {Edge(hero1, hero2)};
      }
    }

    /** MATCH (h:Hero {id: hero}) MATCH (c:Comic {id: comic}) MERGE (h)-[:APPEARS_IN]->(c) */
    method MergeAppearsIn(hero: string, comic: string)
      requires Valid()
      modifies this
      ensures Valid()
      ensures State() == old(State()).(appearsIn :=
        if hero in old(heroes) && comic in old(comics)
        then old(appearsIn) + {Edge(hero, comic)} else old(appearsIn))
    {
      if hero in heroes && comic in comics {
        appearsIn := appearsIn + {Edge(hero, comic)};
      }
    }
  }
}
