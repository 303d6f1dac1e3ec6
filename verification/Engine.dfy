/** Runs of the client engine: what the application, the network and the clock can make it do. */
module Engine {
  import opened Core
  import opened Client
  import opened Management
  import U = Uri

  datatype Event =
    | Tick                                      // lwm2m_step
    | Packet(session: Session, message: Message) // lwm2m_handle_packet
    | Changed(uri: U.Uri)                       // lwm2m_resource_value_changed
    | StartAll                                  // lwm2m_start
    | UpdateRegistration(shortID: uint16)       // lwm2m_update_registration
    | DeregisterAll                             // lwm2m_deregister

  function Apply(s: State, e: Event, env: Env): State {
    match e
    case Tick => Step(s, env)
    case Packet(session, m) => HandlePacket(s, session, m, env)
    case Changed(uri) => ValueChanged(s, uri, env)
    case StartAll => Start(s, env).0
    case UpdateRegistration(shortID) => UpdateByShortId(s, shortID, env)
    case DeregisterAll => DeregisterFrom(s, env.now, 0)
  }

  /** The state after lwm2m_init and lwm2m_configure, before the first lwm2m_start. */
  predicate Initial(s: State) {
    && s.bsState == NotBootstrapped && s.servers == [] && s.bsServers == []
    && s.observed == [] && s.transactions == [] && s.drawn == s.created == 0 && !s.clashed && s.log == []
  }

  /** A run: one event after the other, each with its own surroundings. */
  function Run(s: State, events: seq<(Event, Env)>): State
    decreases |events|
  {
    if events == [] then s else Run(Apply(s, events[0].0, events[0].1), events[1..])
  }
}
