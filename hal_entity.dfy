/** The HAL document that wraps one REST entity. Its data is the entity's array form;
    its links are chosen by the kind of entity once a route generator is supplied, and
    asking for the links before that, or after the entity has been replaced, is an
    error. The HAL base class (its uri and link store) is not part of this model: `uri`
    and `links` stand for what `setUri` and `addLink` record. */
module Hal {
  import opened Common

  /** The kinds of entity the links depend on: a user, an application (an LPA), or
      anything held inside an application. */
  datatype EntityKind = UsersEntity | ApplicationsEntity | OtherEntity

  /** A REST entity: its kind and its `toArray()`. */
  datatype RestEntity = RestEntity(kind: EntityKind, fields: Doc)

  /** The route names, from the user level down. */
  const USER_ROUTE: string := "api-v1"
  const APPLICATION_ROUTE: string := "api-v1/level-1"
  const ITEM_ROUTE: string := "api-v1/level-2"
  const ROUTES: seq<string> := [USER_ROUTE, APPLICATION_ROUTE, ITEM_ROUTE]

  /** How deep below the user an entity of each kind sits. */
  function Level(kind: EntityKind): (l: nat)
    ensures l < |ROUTES|
  {
    match kind
    case UsersEntity => 0
    case ApplicationsEntity => 1
    case OtherEntity => 2
  }

  /** The route a document's own uri is generated from. */
  function SelfRoute(kind: EntityKind): string
  {
    match kind
    case UsersEntity => USER_ROUTE
    case ApplicationsEntity => APPLICATION_ROUTE
    case OtherEntity => ITEM_ROUTE
  }

  /** The links added besides the uri: each relation and the route it is generated from. */
  function LinkRoutes(kind: EntityKind): map<string, string>
  {
    match kind
    case UsersEntity => map[]
    case ApplicationsEntity => map["user" := USER_ROUTE]
    case OtherEntity => map["user" := USER_ROUTE, "application" := APPLICATION_ROUTE]
  }

  /** A document's own uri comes from its level's route, and it links to every level
      above its own and to nothing else: a user has no links, an application links to
      its user, anything inside an application to both. */
  lemma LinksReachEveryLevelAbove(kind: EntityKind)
    ensures SelfRoute(kind) == ROUTES[Level(kind)]
    ensures (set rel | rel in LinkRoutes(kind) :: LinkRoutes(kind)[rel]) ==
            (set i | 0 <= i < Level(kind) :: ROUTES[i])
  {
    var linked := set rel | rel in LinkRoutes(kind) :: LinkRoutes(kind)[rel];
    var above := set i | 0 <= i < Level(kind) :: ROUTES[i];
    match kind
    case UsersEntity =>
      assert linked == {};
      assert above == {};
    case ApplicationsEntity =>
      assert LinkRoutes(kind)["user"] == USER_ROUTE;
      assert linked == {USER_ROUTE};
      assert ROUTES[0] == USER_ROUTE;
      assert above == {USER_ROUTE};
    case OtherEntity =>
      assert LinkRoutes(kind)["user"] == USER_ROUTE;
      assert LinkRoutes(kind)["application"] == APPLICATION_ROUTE;
      assert linked == {USER_ROUTE, APPLICATION_ROUTE};
      assert ROUTES[0] == USER_ROUTE && ROUTES[1] == APPLICATION_ROUTE;
      assert above == {USER_ROUTE, APPLICATION_ROUTE};
  }

  /** The links `setLinks` adds, generated by `route` for the entity. */
  function GeneratedLinks(e: RestEntity, route: (string, RestEntity) -> string): (r: map<string, string>)
    ensures r.Keys == LinkRoutes(e.kind).Keys
    ensures forall rel :: rel in r ==> r[rel] == route(LinkRoutes(e.kind)[rel], e)
  {
    map rel | rel in LinkRoutes(e.kind) :: route(LinkRoutes(e.kind)[rel], e)
  }

  /** The generated links of each kind of entity, written out. */
  lemma GeneratedLinksByKind(e: RestEntity, route: (string, RestEntity) -> string)
    ensures e.kind == UsersEntity ==> GeneratedLinks(e, route) == map[]
    ensures e.kind == ApplicationsEntity ==>
      GeneratedLinks(e, route) == map["user" := route(USER_ROUTE, e)]
    ensures e.kind == OtherEntity ==>
      GeneratedLinks(e, route) == map["user" := route(USER_ROUTE, e), "application" := route(APPLICATION_ROUTE, e)]
  {
    var g := GeneratedLinks(e, route);
    match e.kind
    case UsersEntity =>
    case ApplicationsEntity =>
      assert g.Keys == {"user"};
    case OtherEntity =>
      assert g.Keys == {"user", "application"};
  }

  /** Adding links one by one is merging them in. */
  lemma AddLinks(links: map<string, string>, added: map<string, string>)
    ensures "user" in added && added.Keys == {"user"} ==>
      links["user" := added["user"]] == links + added
    ensures "user" in added && "application" in added && added.Keys == {"user", "application"} ==>
      links["user" := added["user"]]["application" := added["application"]] == links + added
  {
  }

  class HalEntity {
    var entity: RestEntity
    var data: Doc
    var linksSet: bool
    var uri: Option<string>
    var links: map<string, string>

    /** A new document for `entity`, with no links yet. */
    constructor (entity: RestEntity)
      ensures this.entity == entity && data == entity.fields
      ensures !linksSet && uri == None && links == map[]
    {
      this.entity := entity;
      data := entity.fields;
      linksSet := false;
      uri := None;
      links := map[];
    }

    /** `setEntity`: the document now wraps `entity` and holds its array form; the links
        must be set again before they can be read. The uri and links already added stay. */
    method SetEntity(entity: RestEntity)
      modifies this
      ensures this.entity == entity && data == entity.fields && !linksSet
      ensures uri == old(uri) && links == old(links)
    {
      linksSet := false;
      this.entity := entity;
      data := entity.fields;
    }

    /** `getLinks`: `None` is the RuntimeException 'Cannot return links until they have
        been set.' */
    function GetLinks(): (r: Option<map<string, string>>)
      reads this
      ensures r.Some? <==> linksSet
      ensures r.Some? ==> r.value == links
    {
      if linksSet then Some(links) else None
    }

    /** `setLinks($routeCallback)`: the uri from the route of the entity's own level, a
        link to each level above it, and the links can be read from now on. */
    method SetLinks(route: (string, RestEntity) -> string)
      modifies this
      ensures linksSet
      ensures uri == Some(route(SelfRoute(entity.kind), entity))
      ensures links == old(links) + GeneratedLinks(entity, route)
      ensures entity == old(entity) && data == old(data)
    {
      GeneratedLinksByKind(entity, route);
      match entity.kind {
        case UsersEntity =>
          uri := Some(route(USER_ROUTE, entity));
        case ApplicationsEntity =>
          uri := Some(route(APPLICATION_ROUTE, entity));
          AddLinks(links, map["user" := route(USER_ROUTE, entity)]);
          links := links["user" := route(USER_ROUTE, entity)];
        case OtherEntity =>
          uri := Some(route(ITEM_ROUTE, entity));
          AddLinks(links, map["user" := route(USER_ROUTE, entity), "application" := route(APPLICATION_ROUTE, entity)]);
          links := links["user" := route(USER_ROUTE, entity)];
          links := links["application" := route(APPLICATION_ROUTE, entity)];
      }
      linksSet := true;
    }
  }
}
