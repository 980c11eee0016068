/** Opaque identities: users, replicas, live WebSocket connections and conversations. */
module Ids {
  datatype User = User(id: int)
  datatype Node = Node(id: string)
  datatype Conn = Conn(address: int)
  datatype Room = Room(id: int)
}
