/** The ports Envoy binds for listener ports. */
module Ports {
  const ENVOY_ADMIN_PORT: nat := 19000
  const ENVOY_READINESS_PORT: nat := 19001
  const PRIVILEGED_PORT_OFFSET: nat := 10000

  function ContainerPort(port: nat): nat {
    if port < 1024 then port + PRIVILEGED_PORT_OFFSET else port
  }
}
