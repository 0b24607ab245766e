/**
 * A peer's row of the mesh_nodes table, reduced to the columns that address
 * reservation reads. The two DHCP columns are nullable integers.
 */
module MeshRows {
  import opened Outcomes

  datatype MeshNode = MeshNode(
    mac: string,
    hostname: string,
    ip: string,
    dhcpStart: Option<int>,
    dhcpLimit: Option<int>)
}
